/** generate-and-send-odontogroup.js after the payloads are built: log in,
    POST every payload to the partner's `/departamento`, and sort the
    answers into successes and failures. The script means to log in again
    once when a POST is refused as unauthorised; as written, that branch
    never runs (README, "Findings"), and both versions are modelled. */
module OdontogroupSend {
  import opened Wrappers
  import opened JsValues
  import opened Http
  import opened CompanyPayload

  /** An error thrown inside the loop's `try`: its `response`, if any, and
      its `message`. */
  datatype Thrown = Thrown(response: Option<Reply>, message: string)

  datatype LoginResult = LoggedIn(token: JsVal) | LoginThrew(thrown: Thrown)

  const NoToken := "Login sem token"

  /** `login()`: the token of the answer, or what it throws: the request's
      error, or 'Login sem token' when the body has no truthy `token`. */
  function Login(o: Outcome): (r: LoginResult)
    ensures r.LoggedIn? <==> o.Resolved? && Truthy(OptProp(o.reply.data, "token"))
    ensures r.LoggedIn? ==> Truthy(r.token)
    ensures r.LoginThrew? && o.Resolved? ==> r.thrown == Thrown(None, NoToken)
  {
    match o
    case Rejected(response, message) => LoginThrew(Thrown(response, message))
    case Resolved(reply) =>
      var token := OptProp(reply.data, "token");
      if !Truthy(token) then LoginThrew(Thrown(None, NoToken)) else LoggedIn(token)
  }

  /** An entry of `successes` or of `failures`; `index` counts from 1. */
  datatype Entry =
    | Success(index: nat, input: CompanyBody, status: int, output: JsVal)
    | Failure(index: nat, input: CompanyBody, failStatus: JsVal, error: JsVal)

  /** The failure entry of an error: `err?.response?.status ?? 0` and
      `err?.response?.data ?? err?.message`. */
  function FailureOf(index: nat, body: CompanyBody, t: Thrown): (e: Entry)
    ensures e.Failure? && e.index == index && e.input == body
    ensures t.response.None? ==> e.failStatus == Num(0) && e.error == Str(t.message)
    ensures t.response.Some? ==> e.failStatus == Num(t.response.value.status)
  {
    var status := if t.response.Some? then Num(t.response.value.status) else Undef;
    var data := if t.response.Some? then t.response.value.data else Undef;
    Failure(index, body, Coalesce(status, Num(0)), Coalesce(data, Str(t.message)))
  }

  /** The partner: the answer to the `k`-th login request, and to a POST of
      a body under an `Authorization: Bearer` token. */
  datatype Partner = Partner(logins: nat -> Outcome, post: (string, CompanyBody) -> Outcome)

  /** The loop's state: the current token, the logins made so far, the
      POSTs made (token and body), and the two lists. */
  datatype State = State(
    token: JsVal,
    logins: nat,
    posts: seq<(string, CompanyBody)>,
    successes: seq<Entry>,
    failures: seq<Entry>)

  /** How axios settles a request under its default `validateStatus`: only a
      2xx answer resolves; any other status rejects with the response
      attached. */
  predicate AxiosSettles(o: Outcome) {
    o.Resolved? ==> 200 <= o.reply.status <= 299
  }

  /** The last step of a payload: the second POST after a fresh login. A
      login that throws, or a second POST that is refused, is a failure; a
      second POST that settles is a success. */
  function Retry(p: Partner, st: State, index: nat, body: CompanyBody): (r: State)
    ensures r.logins == st.logins + 1
    ensures |r.successes| + |r.failures| == |st.successes| + |st.failures| + 1
    ensures Login(p.logins(st.logins)).LoginThrew? ==>
      r.failures == st.failures + [FailureOf(index, body, Login(p.logins(st.logins)).thrown)]
      && r.successes == st.successes && r.posts == st.posts
    ensures Login(p.logins(st.logins)).LoggedIn? ==>
      var token := Login(p.logins(st.logins)).token;
      var o := p.post(ToStr(token), body);
      && r.token == token && r.posts == st.posts + [(ToStr(token), body)]
      && (o.Resolved? ==>
            r.successes == st.successes + [Success(index, body, o.reply.status, o.reply.data)] && r.failures == st.failures)
      && (o.Rejected? ==>
            r.failures == st.failures + [FailureOf(index, body, Thrown(o.response, o.message))] && r.successes == st.successes)
  {
    var st1 := st.(logins := st.logins + 1);
    match Login(p.logins(st.logins))
    case LoginThrew(t) => st1.(failures := st.failures + [FailureOf(index, body, t)])
    case LoggedIn(token) =>
      var o := p.post(ToStr(token), body);
      var st2 := st1.(token := token, posts := st.posts + [(ToStr(token), body)]);
      match o
      case Rejected(response, message) => st2.(failures := st.failures + [FailureOf(index, body, Thrown(response, message))])
      case Resolved(reply) => st2.(successes := st.successes + [Success(index, body, reply.status, reply.data)])
  }

  /** One payload as written: the re-login is taken only when a RESOLVED
      answer has status 401. */
  function SendAsWritten(p: Partner, st: State, index: nat, body: CompanyBody): (r: State)
    ensures |r.successes| + |r.failures| == |st.successes| + |st.failures| + 1
    ensures var o := p.post(ToStr(st.token), body);
      && (o.Rejected? ==>
            && r.failures == st.failures + [FailureOf(index, body, Thrown(o.response, o.message))]
            && r.successes == st.successes && r.logins == st.logins)
      && (o.Resolved? && o.reply.status != 401 ==>
            && r.successes == st.successes + [Success(index, body, o.reply.status, o.reply.data)]
            && r.failures == st.failures && r.logins == st.logins)
      && (o.Resolved? && o.reply.status == 401 ==> r.logins == st.logins + 1)
  {
    var o := p.post(ToStr(st.token), body);
    var st1 := st.(posts := st.posts + [(ToStr(st.token), body)]);
    match o
    case Rejected(response, message) => st1.(failures := st.failures + [FailureOf(index, body, Thrown(response, message))])
    case Resolved(reply) =>
      if reply.status == 401 then Retry(p, st1, index, body)
      else st1.(successes := st.successes + [Success(index, body, reply.status, reply.data)])
  }

  /** Under axios's default settling the as-written re-login never happens:
      every answer, a 401 included, is handled by one POST and no login. */
  lemma AsWrittenNeverLogsInAgain(p: Partner, st: State, index: nat, body: CompanyBody)
    requires AxiosSettles(p.post(ToStr(st.token), body))
    ensures SendAsWritten(p, st, index, body).logins == st.logins
    ensures SendAsWritten(p, st, index, body).posts == st.posts + [(ToStr(st.token), body)]
  {
  }

  /** The input that shows it: an expired token's POST is rejected with
      status 401, and the payload goes straight to the failures with that
      status, without the promised re-login and retry. */
  lemma AsWrittenUnauthorizedIsFailure(p: Partner, st: State, index: nat, body: CompanyBody, data: JsVal)
    requires p.post(ToStr(st.token), body) == Rejected(Some(Reply(401, data)), "Request failed with status code 401")
    ensures var r := SendAsWritten(p, st, index, body);
      && r.logins == st.logins && |r.posts| == |st.posts| + 1
      && r.failures == st.failures + [FailureOf(index, body, Thrown(Some(Reply(401, data)), "Request failed with status code 401"))]
      && r.failures[|st.failures|].failStatus == Num(401)
  {
  }

  /** Whether an answer is the refusal that calls for a new login. */
  predicate Unauthorized(o: Outcome) {
    (o.Rejected? && o.response.Some? && o.response.value.status == 401)
    || (o.Resolved? && o.reply.status == 401)
  }

  /** One payload, with the retry the script intends: a 401, however axios
      delivers it, triggers one new login and one more POST of the same
      body. */
  function Send(p: Partner, st: State, index: nat, body: CompanyBody): (r: State)
    ensures |r.successes| + |r.failures| == |st.successes| + |st.failures| + 1
    ensures var o := p.post(ToStr(st.token), body);
      && (!Unauthorized(o) && o.Rejected? ==>
            && r.failures == st.failures + [FailureOf(index, body, Thrown(o.response, o.message))]
            && r.successes == st.successes && r.logins == st.logins)
      && (!Unauthorized(o) && o.Resolved? ==>
            && r.successes == st.successes + [Success(index, body, o.reply.status, o.reply.data)]
            && r.failures == st.failures && r.logins == st.logins)
      && (Unauthorized(o) ==> r.logins == st.logins + 1)
  {
    var o := p.post(ToStr(st.token), body);
    var st1 := st.(posts := st.posts + [(ToStr(st.token), body)]);
    if Unauthorized(o) then Retry(p, st1, index, body)
    else
      match o
      case Rejected(response, message) => st1.(failures := st.failures + [FailureOf(index, body, Thrown(response, message))])
      case Resolved(reply) => st1.(successes := st.successes + [Success(index, body, reply.status, reply.data)])
  }

  /** A 401 triggers exactly one new login and, when it yields a token, one
      retry of the same body under that token. */
  lemma SendRetriesOnce(p: Partner, st: State, index: nat, body: CompanyBody)
    requires Unauthorized(p.post(ToStr(st.token), body))
    ensures var r := Send(p, st, index, body);
      && r.logins == st.logins + 1
      && (Login(p.logins(st.logins)).LoggedIn? ==>
            var t := ToStr(Login(p.logins(st.logins)).token);
            r.posts == st.posts + [(ToStr(st.token), body), (t, body)])
      && (Login(p.logins(st.logins)).LoginThrew? ==> r.posts == st.posts + [(ToStr(st.token), body)])
  {
  }

  /** Any other answer is handled exactly as written. */
  lemma SendAgreesOtherwise(p: Partner, st: State, index: nat, body: CompanyBody)
    requires !Unauthorized(p.post(ToStr(st.token), body))
    ensures Send(p, st, index, body) == SendAsWritten(p, st, index, body)
    ensures Send(p, st, index, body).logins == st.logins
  {
  }

  // ------------------------------------------------------------ the loop

  /** Which loop body a run uses: the script as written, or the script with
      the 401 retry it evidently intends (README, "Findings"). */
  datatype Version = AsWritten | Corrected

  /** One payload under either loop body: it adds exactly one entry, with
      its index, to one of the lists. */
  function SendBy(v: Version, p: Partner, st: State, index: nat, body: CompanyBody): (r: State)
    ensures AddsOne(st, r, index)
    ensures v == AsWritten ==> r == SendAsWritten(p, st, index, body)
    ensures v == Corrected ==> r == Send(p, st, index, body)
  {
    SendAddsOne(p, st, index, body);
    SendAsWrittenAddsOne(p, st, index, body);
    match v
    case AsWritten => SendAsWritten(p, st, index, body)
    case Corrected => Send(p, st, index, body)
  }

  /** The loop over the payloads, indexing them from 1. */
  function SendAll(v: Version, p: Partner, st: State, payloads: seq<CompanyBody>): State {
    if payloads == [] then st
    else SendBy(v, p, SendAll(v, p, st, payloads[..|payloads| - 1]), |payloads|, payloads[|payloads| - 1])
  }

  function Indices(es: seq<Entry>): set<nat> {
    set e | e in es :: e.index
  }

  /** Indices grow along a list. */
  predicate Increasing(es: seq<Entry>) {
    forall i, j :: 0 <= i < j < |es| ==> es[i].index < es[j].index
  }

  /** The indices `1..n`. */
  function Range(n: nat): (r: set<nat>)
    ensures forall k :: k in r <==> 1 <= k <= n
  {
    if n == 0 then {} else Range(n - 1) + {n}
  }

  /** The payload at position `k` (from 1) has its entry in exactly one
      list: `successes` and `failures` partition `1..n`, each in order. */
  ghost predicate Partitioned(st: State, n: nat) {
    && Indices(st.successes) !! Indices(st.failures)
    && Indices(st.successes) + Indices(st.failures) == Range(n)
    && Increasing(st.successes) && Increasing(st.failures)
    && |st.successes| + |st.failures| == n
  }

  /** Appending an entry with a larger index than all keeps a list
      increasing and adds that index. */
  lemma AppendEntry(es: seq<Entry>, e: Entry)
    requires Increasing(es) && forall x :: x in es ==> x.index < e.index
    ensures Increasing(es + [e]) && Indices(es + [e]) == Indices(es) + {e.index}
  {
    var r := es + [e];
    forall i, j | 0 <= i < j < |r| ensures r[i].index < r[j].index {
      if j == |es| {
        assert r[i] in es;
      }
    }
    assert forall x :: x in r <==> x in es || x == e;
  }

  /** One payload adds exactly one entry, with its index, to the end of
      one of the lists and leaves the other alone. */
  predicate AddsOne(st: State, r: State, index: nat) {
    || (&& |r.successes| == |st.successes| + 1 && r.failures == st.failures
        && r.successes == st.successes + [r.successes[|st.successes|]]
        && r.successes[|st.successes|].index == index)
    || (&& |r.failures| == |st.failures| + 1 && r.successes == st.successes
        && r.failures == st.failures + [r.failures[|st.failures|]]
        && r.failures[|st.failures|].index == index)
  }

  lemma SendAddsOne(p: Partner, st: State, index: nat, body: CompanyBody)
    ensures AddsOne(st, Send(p, st, index, body), index)
  {
  }

  lemma SendAsWrittenAddsOne(p: Partner, st: State, index: nat, body: CompanyBody)
    ensures AddsOne(st, SendAsWritten(p, st, index, body), index)
  {
  }

  lemma AddKeepsPartition(st: State, r: State, n: nat)
    requires Partitioned(st, n) && AddsOne(st, r, n + 1)
    ensures Partitioned(r, n + 1)
  {
    forall x | x in st.successes ensures x.index < n + 1 {
      assert x.index in Indices(st.successes);
    }
    forall x | x in st.failures ensures x.index < n + 1 {
      assert x.index in Indices(st.failures);
    }
    if |r.successes| == |st.successes| + 1 && r.failures == st.failures
      && r.successes == st.successes + [r.successes[|st.successes|]]
      && r.successes[|st.successes|].index == n + 1 {
      AppendEntry(st.successes, r.successes[|st.successes|]);
    } else {
      AppendEntry(st.failures, r.failures[|st.failures|]);
    }
  }

  /** Each payload ends in exactly one of the lists, and the indices `1..n`
      are shared between them in order, under either loop body. */
  lemma {:induction false} SendAllPartitions(v: Version, p: Partner, st: State, payloads: seq<CompanyBody>)
    requires st.successes == [] && st.failures == []
    ensures Partitioned(SendAll(v, p, st, payloads), |payloads|)
  {
    if payloads != [] {
      SendAllPartitions(v, p, st, payloads[..|payloads| - 1]);
      var prev := SendAll(v, p, st, payloads[..|payloads| - 1]);
      AddKeepsPartition(prev, SendAll(v, p, st, payloads), |payloads| - 1);
    }
  }

  /** As written, and with axios settling every POST by its default rule,
      the loop never logs in: the first login is the only one. */
  lemma {:induction false} AsWrittenLoopKeepsLogins(p: Partner, st: State, payloads: seq<CompanyBody>)
    requires forall t, b :: AxiosSettles(p.post(t, b))
    ensures SendAll(AsWritten, p, st, payloads).logins == st.logins
  {
    if payloads != [] {
      var prev := SendAll(AsWritten, p, st, payloads[..|payloads| - 1]);
      AsWrittenLoopKeepsLogins(p, st, payloads[..|payloads| - 1]);
      AsWrittenNeverLogsInAgain(p, prev, |payloads|, payloads[|payloads| - 1]);
    }
  }

  /** When the partner never refuses a POST as unauthorised, the corrected
      loop is the loop as written. */
  lemma {:induction false} LoopsAgreeWithout401(p: Partner, st: State, payloads: seq<CompanyBody>)
    requires forall t, b :: !Unauthorized(p.post(t, b))
    ensures SendAll(Corrected, p, st, payloads) == SendAll(AsWritten, p, st, payloads)
  {
    if payloads != [] {
      LoopsAgreeWithout401(p, st, payloads[..|payloads| - 1]);
      var prev := SendAll(AsWritten, p, st, payloads[..|payloads| - 1]);
      SendAgreesOtherwise(p, prev, |payloads|, payloads[|payloads| - 1]);
    }
  }

  /** The script after its query: the payloads (or why there are none),
      then the first login, whose failure ends the run, then the loop,
      whose entries partition the payload indices. `v` picks the loop
      body; `AsWritten` is the script. */
  function Run(v: Version, p: Partner, rows: seq<Row>): (r: Result<State>)
    ensures r.Ok? ==> Generate(rows).Ok? && Login(p.logins(0)).LoggedIn?
    ensures Generate(rows).Ok? && p.logins(0).Resolved? && !Truthy(OptProp(p.logins(0).reply.data, "token")) ==>
      r == Err(NoToken)
    ensures r.Ok? ==> Partitioned(r.value, |Generate(rows).value|) && r.value.logins >= 1
  {
    match Generate(rows)
    case Err(e) => Err(e)
    case Ok(payloads) =>
      match Login(p.logins(0))
      case LoginThrew(t) => Err(t.message)
      case LoggedIn(token) =>
        var st := State(token, 1, [], [], []);
        SendAllPartitions(v, p, st, payloads);
        LoginsGrow(v, p, st, payloads);
        Ok(SendAll(v, p, st, payloads))
  }

  /** The loop never forgets a login. */
  lemma {:induction false} LoginsGrow(v: Version, p: Partner, st: State, payloads: seq<CompanyBody>)
    ensures SendAll(v, p, st, payloads).logins >= st.logins
  {
    if payloads != [] {
      LoginsGrow(v, p, st, payloads[..|payloads| - 1]);
    }
  }

  /** The script as written logs in once per run when axios settles every
      POST by its default rule; the corrected script is the same run unless
      some POST is refused with 401. */
  lemma RunVersions(p: Partner, rows: seq<Row>)
    ensures (forall t, b :: AxiosSettles(p.post(t, b))) && Run(AsWritten, p, rows).Ok? ==>
      Run(AsWritten, p, rows).value.logins == 1
    ensures (forall t, b :: !Unauthorized(p.post(t, b))) ==> Run(Corrected, p, rows) == Run(AsWritten, p, rows)
  {
    if Generate(rows).Ok? && Login(p.logins(0)).LoggedIn? {
      var st := State(Login(p.logins(0)).token, 1, [], [], []);
      if forall t, b :: AxiosSettles(p.post(t, b)) {
        AsWrittenLoopKeepsLogins(p, st, Generate(rows).value);
      }
      if forall t, b :: !Unauthorized(p.post(t, b)) {
        LoopsAgreeWithout401(p, st, Generate(rows).value);
      }
    }
  }
}
