/** `verificarCpfsNaApi` (VerificaCpfOdonto.js): every beneficiary row with a
    CPF is checked against the partner's `associado-Emp` endpoint, at most
    once per CPF thanks to a per-run cache, and one audit row is written to
    `odonto_associado_emp_chk` per row. */
module VerificaCpf {
  import opened Wrappers
  import opened Text
  import opened JsValues
  import opened Http
  import opened AuditLog
  import opened BeneficiarioPayload
  import Seqs

  /** What `consultarAssociadoEmp` returns. */
  datatype Lookup = Lookup(found: bool, httpStatus: JsVal, body: JsVal, msg: string, isError: bool)

  const NotFoundMessage := "Nenhum registro encontrado na API"
  const CallFailedMessage := "Erro ao chamar associado-Emp"
  const BaseMissing := "ODONTO_BASE_APIV3 n\U{00E3}o configurado no .env"
  const TokenMissing := "ODONTO_APIV3_TOKEN n\U{00E3}o configurado no .env"

  function FoundMessage(n: nat): string {
    "Encontrado(s) " + IntToDecimal(n) + " registro(s) na API"
  }

  /** `consultarAssociadoEmp` once the GET settled: found exactly when the
      body is a non-empty array; a failed call is an error, never a find. */
  function Consult(o: Outcome): (l: Lookup)
    ensures l.isError <==> o.Rejected?
    ensures l.found <==> o.Resolved? && o.reply.data.Arr? && |o.reply.data.items| > 0
    ensures l.msg != ""
    ensures o.Rejected? ==> l.httpStatus == ErrorStatus(o.response) && Truthy(l.body)
    ensures o.Resolved? ==> l.httpStatus == Num(o.reply.status) && l.body == o.reply.data
  {
    match o
    case Resolved(reply) =>
      var items := if reply.data.Arr? then reply.data.items else [];
      var found := |items| > 0;
      Lookup(found, Num(reply.status), reply.data,
        if found then FoundMessage(|items|) else NotFoundMessage, false)
    case Rejected(response, message) =>
      Lookup(false, ErrorStatus(response), ErrorData(response),
        if message != "" then message else CallFailedMessage, true)
  }

  /** `statusApi`: 'ERRO' for a failed call, else 'ENCONTRADO' or
      'NAO_ENCONTRADO' by `found`. */
  function StatusApi(l: Lookup): (s: string)
    ensures s == "ERRO" || s == "ENCONTRADO" || s == "NAO_ENCONTRADO"
    ensures s == "ERRO" <==> l.isError
    ensures s == "ENCONTRADO" <==> !l.isError && l.found
  {
    if l.isError then "ERRO" else if l.found then "ENCONTRADO" else "NAO_ENCONTRADO"
  }

  /** The partner's answer decides the status: 'ENCONTRADO' exactly for a
      successful call that listed the CPF, 'ERRO' exactly for a failed one. */
  lemma StatusOfOutcome(o: Outcome)
    ensures StatusApi(Consult(o)) == "ENCONTRADO" <==>
      o.Resolved? && o.reply.data.Arr? && o.reply.data.items != []
    ensures StatusApi(Consult(o)) == "ERRO" <==> o.Rejected?
  {
  }

  /** A value of `cacheCpf`. */
  datatype Cached = Cached(statusApi: string, httpStatus: JsVal, msg: string, body: JsVal)

  function CacheEntry(l: Lookup): (c: Cached)
    ensures c.statusApi == StatusApi(l) && c.httpStatus == l.httpStatus
  {
    Cached(StatusApi(l), l.httpStatus, l.msg, l.body)
  }

  /** A row of `odonto_associado_emp_chk`; `json` is the body that
      `JSON.stringify` writes, or none for a falsy body. */
  datatype CheckLog = CheckLog(
    nnumeusua: JsVal,
    cpf: string,
    nome: JsVal,
    statusApi: string,
    httpStatus: JsVal,
    msg: string,
    json: Option<JsVal>)

  /** `gravarResultadoCheck(...)` for a row and the lookup of its CPF. The
      status column is as written: a lookup without a response stores `NaN`
      where `null` was meant (README, "Findings"). */
  function Record(row: Row, cpf: string, c: Cached): (r: CheckLog)
    ensures |r.msg| <= MessageLimit
    ensures r.httpStatus.Num? || r.httpStatus.Null? || r.httpStatus.NaN?
    ensures r.httpStatus.NaN? <==> Truthy(c.httpStatus) && ToNumber(c.httpStatus).NaN?
    ensures StatusColumn(c.httpStatus) == if r.httpStatus.NaN? then Null else r.httpStatus
    ensures r.cpf == cpf && r.statusApi == c.statusApi
  {
    StatusColumnAsWrittenHolds(c.httpStatus);
    CheckLog(Col(row, "nnumeusua"), cpf, Col(row, "nome"), c.statusApi, StatusColumnAsWritten(c.httpStatus),
      Message(Str(c.msg)), if Truthy(c.body) then Some(c.body) else None)
  }

  function RowCpf(row: Row): (cpf: string)
    ensures AllDigits(cpf)
  {
    OnlyDigits(Col(row, "cpf"))
  }

  predicate HasCpf(row: Row) {
    RowCpf(row) != ""
  }

  // ------------------------------------------------------------ the loop

  /** The loop's state: the cache, the CPFs looked up so far in order, the
      audit rows written, and the error that ended the run, if any. */
  datatype State = State(cache: map<string, Cached>, calls: seq<string>, records: seq<CheckLog>, error: Option<string>)

  const Start := State(map[], [], [], None)

  /** One iteration over a row. `api` answers a lookup by CPF; a missing
      `ODONTO_BASE_APIV3` throws when a lookup is first needed. */
  function Step(api: string -> Outcome, base: string, st: State, row: Row): (r: State)
    ensures st.error.None? && !HasCpf(row) ==> r == st
    ensures |r.records| <= |st.records| + 1
  {
    if st.error.Some? then st
    else
      var cpf := RowCpf(row);
      if cpf == "" then st
      else if cpf in st.cache then st.(records := st.records + [Record(row, cpf, st.cache[cpf])])
      else if base == "" then st.(error := Some(BaseMissing))
      else
        var c := CacheEntry(Consult(api(cpf)));
        State(st.cache[cpf := c], st.calls + [cpf], st.records + [Record(row, cpf, c)], None)
  }

  function Loop(api: string -> Outcome, base: string, rows: seq<Row>): State {
    if rows == [] then Start else Step(api, base, Loop(api, base, rows[..|rows| - 1]), rows[|rows| - 1])
  }

  /** `verificarCpfsNaApi`: nothing for an empty SELECT, an error before any
      lookup when the token is missing, otherwise the loop. */
  function VerifyRun(api: string -> Outcome, token: string, base: string, rows: seq<Row>): (r: State)
    ensures rows == [] ==> r == Start
    ensures rows != [] && token == "" ==> r.records == [] && r.calls == [] && r.error == Some(TokenMissing)
  {
    if rows == [] then Start
    else if token == "" then Start.(error := Some(TokenMissing))
    else Loop(api, base, rows)
  }

  // ------------------------------------------------------------ reference

  /** The audit row a row with a CPF should get: its CPF looked up afresh. */
  function Expected(api: string -> Outcome, row: Row): CheckLog {
    Record(row, RowCpf(row), CacheEntry(Consult(api(RowCpf(row)))))
  }

  /** The reference run without a cache: one looked-up row per row with a
      CPF, in order. */
  function ExpectedRecords(api: string -> Outcome, rows: seq<Row>): (rs: seq<CheckLog>)
    ensures |rs| == Seqs.Count(HasCpf, rows)
  {
    Seqs.FilterCount(HasCpf, rows);
    Seqs.Map(row => Expected(api, row), Seqs.Filter(HasCpf, rows))
  }

  lemma ExpectedRecordsAppend(api: string -> Outcome, rows: seq<Row>, x: Row)
    ensures ExpectedRecords(api, rows + [x]) ==
      ExpectedRecords(api, rows) + (if HasCpf(x) then [Expected(api, x)] else [])
  {
    Seqs.FilterAppend(HasCpf, rows, [x]);
    assert Seqs.Filter(HasCpf, [x]) == if HasCpf(x) then [x] else [] by {
      assert [x][1..] == [];
    }
    Seqs.MapAppend(row => Expected(api, row), Seqs.Filter(HasCpf, rows), Seqs.Filter(HasCpf, [x]));
  }

  /** The CPFs of the rows that have one. */
  ghost function CpfsOf(rows: seq<Row>): set<string> {
    set r | r in rows && HasCpf(r) :: RowCpf(r)
  }

  ghost predicate Distinct(s: seq<string>) {
    forall i, j :: 0 <= i < j < |s| ==> s[i] != s[j]
  }

  /** The cache holds exactly the CPFs seen, each with the lookup of that CPF. */
  ghost predicate CacheInv(api: string -> Outcome, rows: seq<Row>, cache: map<string, Cached>) {
    && cache.Keys == CpfsOf(rows)
    && forall k :: k in cache ==> cache[k] == CacheEntry(Consult(api(k)))
  }

  /** The lookups made are the cached CPFs, each once. */
  ghost predicate CallsInv(calls: seq<string>, cache: map<string, Cached>) {
    && (forall k :: k in calls <==> k in cache)
    && Distinct(calls)
  }

  /** The loop's invariant after a prefix of the rows. */
  ghost predicate Inv(api: string -> Outcome, rows: seq<Row>, st: State) {
    && st.error.None?
    && CacheInv(api, rows, st.cache)
    && CallsInv(st.calls, st.cache)
    && st.records == ExpectedRecords(api, rows)
  }

  lemma CpfsOfAppend(rows: seq<Row>, x: Row)
    ensures CpfsOf(rows + [x]) == CpfsOf(rows) + (if HasCpf(x) then {RowCpf(x)} else {})
  {
    var lhs, rhs := CpfsOf(rows + [x]), CpfsOf(rows) + (if HasCpf(x) then {RowCpf(x)} else {});
    forall k | k in lhs ensures k in rhs {
      var y :| y in rows + [x] && HasCpf(y) && RowCpf(y) == k;
      if y != x {
        assert y in rows;
      }
    }
    forall k | k in rhs ensures k in lhs {
      if k in CpfsOf(rows) {
        var y :| y in rows && HasCpf(y) && RowCpf(y) == k;
        assert y in rows + [x];
      } else {
        assert x in rows + [x];
      }
    }
  }

  /** A new CPF extends the cache and the call list together. */
  lemma CallsInvAdd(calls: seq<string>, cache: map<string, Cached>, k: string, c: Cached)
    requires CallsInv(calls, cache) && k !in cache
    ensures CallsInv(calls + [k], cache[k := c])
  {
    var r := calls + [k];
    forall i, j | 0 <= i < j < |r| ensures r[i] != r[j] {
      if j == |calls| {
        assert calls[i] in calls;
      }
    }
  }

  lemma CacheInvStep(api: string -> Outcome, base: string, rows: seq<Row>, st: State, x: Row)
    requires base != "" && st.error.None? && CacheInv(api, rows, st.cache)
    ensures CacheInv(api, rows + [x], Step(api, base, st, x).cache)
  {
    CpfsOfAppend(rows, x);
  }

  lemma StepKeepsInv(api: string -> Outcome, base: string, rows: seq<Row>, st: State, x: Row)
    requires base != "" && Inv(api, rows, st)
    ensures Inv(api, rows + [x], Step(api, base, st, x))
  {
    ExpectedRecordsAppend(api, rows, x);
    CacheInvStep(api, base, rows, st, x);
    if HasCpf(x) && RowCpf(x) !in st.cache {
      CallsInvAdd(st.calls, st.cache, RowCpf(x), CacheEntry(Consult(api(RowCpf(x)))));
    }
  }

  /** The cached loop is the uncached reference run: one audit row per row
      with a CPF, each with the lookup of its own CPF, and one lookup per
      distinct CPF. */
  lemma {:induction false} LoopInv(api: string -> Outcome, base: string, rows: seq<Row>)
    requires base != ""
    ensures Inv(api, rows, Loop(api, base, rows))
  {
    if rows != [] {
      var init := rows[..|rows| - 1];
      assert rows == init + [rows[|rows| - 1]];
      LoopInv(api, base, init);
      StepKeepsInv(api, base, init, Loop(api, base, init), rows[|rows| - 1]);
    }
  }

  /** What a configured run promises: no error; the audit rows are exactly
      the reference ones, one per row with a CPF; the API is called exactly
      once per distinct CPF; rows without a CPF leave no trace. */
  lemma VerifyRunMatchesReference(api: string -> Outcome, token: string, base: string, rows: seq<Row>)
    requires token != "" && base != ""
    ensures var r := VerifyRun(api, token, base, rows);
      && r.error.None?
      && r.records == ExpectedRecords(api, rows)
      && |r.records| == Seqs.Count(HasCpf, rows)
      && Distinct(r.calls)
      && (forall k :: k in r.calls <==> k in CpfsOf(rows))
  {
    if rows != [] {
      LoopInv(api, base, rows);
    }
  }

  /** Two rows with the same CPF get the same status, HTTP status and
      message: a repeated CPF reuses the first lookup. */
  lemma SameCpfSameResult(api: string -> Outcome, a: Row, b: Row)
    requires RowCpf(a) == RowCpf(b)
    ensures var ra, rb := Expected(api, a), Expected(api, b);
      ra.statusApi == rb.statusApi && ra.httpStatus == rb.httpStatus && ra.msg == rb.msg && ra.cpf == rb.cpf
  {
  }

  /** Without `ODONTO_BASE_APIV3` the run stops at the first row with a CPF,
      before writing anything. */
  lemma {:induction false} NoBaseStopsAtFirstCpf(api: string -> Outcome, rows: seq<Row>)
    ensures var r := Loop(api, "", rows);
      && r.records == [] && r.calls == []
      && (r.error.Some? <==> AnyCpf(rows))
  {
    if rows != [] {
      var init := rows[..|rows| - 1];
      var x := rows[|rows| - 1];
      assert rows == init + [x];
      NoBaseStopsAtFirstCpf(api, init);
      NoBaseCacheEmpty(api, init);
      AnyCpfAppend(init, x);
    }
  }

  /** Some row has a CPF. */
  predicate AnyCpf(rows: seq<Row>) {
    exists i :: 0 <= i < |rows| && HasCpf(rows[i])
  }

  lemma AnyCpfAppend(rows: seq<Row>, x: Row)
    ensures AnyCpf(rows + [x]) <==> AnyCpf(rows) || HasCpf(x)
  {
    var s := rows + [x];
    if AnyCpf(rows) {
      var i :| 0 <= i < |rows| && HasCpf(rows[i]);
      assert s[i] == rows[i];
    }
    if HasCpf(x) {
      assert s[|rows|] == x;
    }
    if AnyCpf(s) {
      var i :| 0 <= i < |s| && HasCpf(s[i]);
      if i < |rows| {
        assert s[i] == rows[i];
      }
    }
  }

  lemma {:induction false} NoBaseCacheEmpty(api: string -> Outcome, rows: seq<Row>)
    ensures Loop(api, "", rows).cache == map[]
  {
    if rows != [] {
      NoBaseCacheEmpty(api, rows[..|rows| - 1]);
    }
  }
}
