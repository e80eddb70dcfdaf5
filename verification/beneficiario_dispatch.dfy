/** `gerarJsonBeneficiarios` (GeraJsonBeneficiarios_bkp.js): every family is
    sent to AssociadoPJ; when the partner answers that the titular is already
    registered, the family's contract number is looked up and each dependent
    is sent on its own to NovoDependente. Every send is written to the
    `odonto_benef` audit table, and the payloads sent are collected for a
    log file. */
module BeneficiarioDispatch {
  import opened Wrappers
  import opened Text
  import opened JsValues
  import opened Http
  import opened BeneficiarioPayload
  import opened Grouping
  import opened AuditLog
  import Seqs

  /** The environment variables the run reads; "" stands for an unset one. */
  datatype Env = Env(apiv3Token: string, baseApiV3: string, s4eToken: string, s4eBase: string)

  /** The partner's answers, each a function of the request it answers, and
      `JSON.stringify`, which the audit messages fall back to. */
  datatype Partner = Partner(
    associadoPJ: (string, Dados) -> Outcome,
    associadoEmp: string -> Outcome,
    novoDependente: (string, NovoDados) -> Outcome,
    stringify: JsVal -> string)

  /** An element of `listaPayloads`: `{ tipoEnvio, titularId, payload }`,
      where the payload is `{ token, dados }`. */
  datatype Entry =
    | AssociadoPJ(titularId: JsVal, token: string, dados: Dados)
    | NovoDependente(titularId: JsVal, token: string, novo: NovoDados)

  /** A row written to `odonto_benef` (the JSON sent is not modelled). */
  datatype BenefLog = BenefLog(
    nnumeusua: JsVal,
    idOdonto: JsVal,
    cpf: string,
    nome: string,
    statusEnvio: string,
    httpStatus: JsVal,
    msg: string)

  /** What a run leaves behind: the payloads collected, the audit rows
      written, and the message of the error that ended it early, if any. */
  datatype Run = Run(entries: seq<Entry>, audit: seq<BenefLog>, error: Option<string>)

  const NomeLogLimit := 100
  const DefaultS4eBase := "https://odontogroup.s4e.com.br"
  const TokenMissing := "ODONTO_APIV3_TOKEN n\U{00E3}o configurado no .env"
  const ConfigMissing := "Configure ODONTO_BASE_APIV3 e ODONTO_S4E_TOKEN no .env"
  const IncludesNotAFunction := "msgVida.includes is not a function"
  /** The marker of the partner's "titular already registered" answer. */
  const AlreadyRegistered := "Titular j\U{00E1} cadastrado"
  const MatriculaKey := "matricula_contrato_familia"

  // ------------------------------------------------------------ audit rows

  /** The identification columns of an audit row. */
  datatype Contexto = Contexto(nnumeusua: JsVal, idOdonto: JsVal, cpf: string, nome: string)

  /** `gravarOdontoBenef(...)`: the row as stored, with the message cut to the
      column and the status column as written: the intended number or null,
      except that a status that does not read as a number (the
      'no-response' marker) is stored as `NaN` (README, "Findings"). */
  function Record(c: Contexto, statusEnvio: string, httpStatus: JsVal, msgRetorno: JsVal): (r: BenefLog)
    ensures |r.msg| <= MessageLimit && r.msg <= OrEmpty(msgRetorno)
    ensures r.httpStatus.Num? || r.httpStatus.Null? || r.httpStatus.NaN?
    ensures r.httpStatus.NaN? <==> Truthy(httpStatus) && ToNumber(httpStatus).NaN?
    ensures StatusColumn(httpStatus) == if r.httpStatus.NaN? then Null else r.httpStatus
    ensures r.statusEnvio == statusEnvio && r.cpf == c.cpf && r.nnumeusua == c.nnumeusua
  {
    MessageIsPrefix(msgRetorno);
    StatusColumnAsWrittenHolds(httpStatus);
    BenefLog(c.nnumeusua, c.idOdonto, c.cpf, c.nome, statusEnvio, StatusColumnAsWritten(httpStatus), Message(msgRetorno))
  }

  /** The titular's columns, as `gerarJsonBeneficiarios` passes them. */
  function TitularContexto(t: Row): (c: Contexto)
    ensures c.cpf == OnlyDigits(Col(t, "cpf")) && |c.nome| <= NomeLogLimit
  {
    Contexto(Col(t, "nnumeusua"), ToNumber(Col(t, "departamento")), OnlyDigits(Col(t, "cpf")),
      Trunc(Col(t, "nome"), NomeLogLimit))
  }

  /** A dependent's columns: its own id, CPF and name, the titular's company. */
  function DependentContexto(dep: Row, t: Row): (c: Contexto)
    ensures c.cpf == OnlyDigits(Col(dep, "cpf")) && |c.nome| <= NomeLogLimit
    ensures c.idOdonto == TitularContexto(t).idOdonto
  {
    Contexto(Col(dep, "nnumeusua"), ToNumber(Col(t, "departamento")), OnlyDigits(Col(dep, "cpf")),
      Trunc(Col(dep, "nome"), NomeLogLimit))
  }

  /** `a.k1 || a.k2 || fallback` over a response body. */
  function MessageOf(data: JsVal, k1: string, k2: string, fallback: string): JsVal {
    Or(Or(Prop(data, k1), Prop(data, k2)), Str(fallback))
  }

  /** The result of `enviarVidaOdonto` once the request settled: its audit row
      and the body handed back to the caller. */
  datatype Sent = Sent(log: BenefLog, data: JsVal)

  function SendVida(c: Contexto, o: Outcome, stringify: JsVal -> string): (r: Sent)
    ensures Truthy(r.data)
    ensures r.log.statusEnvio == (if o.Resolved? then "OK_VIDA" else "ERRO_VIDA")
    ensures o.Resolved? && Truthy(o.reply.data) ==> r.data == o.reply.data
    ensures o.Rejected? ==> r.data == ErrorData(o.response)
    ensures o.Rejected? && o.response.None? ==> r.log.httpStatus == NaN
  {
    match o
    case Resolved(reply) =>
      var data := Or(reply.data, EmptyObject);
      Sent(Record(c, "OK_VIDA", Num(reply.status), MessageOf(data, "resultMessage", "message", stringify(data))), data)
    case Rejected(response, message) =>
      var data := ErrorData(response);
      StatusColumnAsWrittenStoresNaN();
      Sent(Record(c, "ERRO_VIDA", ErrorStatus(response), MessageOf(data, "resultMessage", "message", message)), data)
  }

  /** The audit row of `enviarNovoDependente`, whose messages are read from
      `mensagem` instead of `resultMessage`. */
  function SendDependent(c: Contexto, o: Outcome, stringify: JsVal -> string): (r: BenefLog)
    ensures r.statusEnvio == (if o.Resolved? then "OK_DEP" else "ERRO_DEP")
    ensures o.Rejected? && o.response.None? ==> r.httpStatus == NaN
    ensures o.Rejected? && o.response.Some? && o.response.value.status != 0 ==> r.httpStatus == Num(o.response.value.status)
  {
    match o
    case Resolved(reply) =>
      var data := Or(reply.data, EmptyObject);
      Record(c, "OK_DEP", Num(reply.status), MessageOf(data, "mensagem", "message", stringify(data)))
    case Rejected(response, message) =>
      var data := ErrorData(response);
      StatusColumnAsWrittenStoresNaN();
      Record(c, "ERRO_DEP", ErrorStatus(response), MessageOf(data, "mensagem", "message", message))
  }

  // ------------------------------------------------------------ decisions

  /** `m.includes(marker)` is true: the message is a string containing the
      marker, or an array holding it as an element. */
  predicate Mentions(m: JsVal) {
    (m.Str? && Contains(m.s, AlreadyRegistered)) || (m.Arr? && Str(AlreadyRegistered) in m.items)
  }

  /** `titularJaCadastrado`: `msgVida.includes('Titular já cadastrado') ||
      codigoVida === 3`, where `msgVida` is the body's `resultMessage` or ''.
      A truthy message that is neither a string nor an array has no
      `includes`, and the call throws. */
  function TitularJaCadastrado(resp: JsVal): (r: Result<bool>)
    ensures !Truthy(resp) ==> r == Ok(false)
    ensures Truthy(resp) ==>
      var m := Prop(resp, "resultMessage");
      && (r.Err? <==> (Truthy(m) && !m.Str? && !m.Arr?))
      && (r.Ok? ==> (r.value <==> Mentions(m) || Prop(resp, "resultCode") == Num(3)))
  {
    var msg := Or(And(resp, Prop(resp, "resultMessage")), Str(""));
    var code := And(resp, Prop(resp, "resultCode"));
    match msg
    case Str(s) => Ok(Contains(s, AlreadyRegistered) || code == Num(3))
    case Arr(items) => Ok(Str(AlreadyRegistered) in items || code == Num(3))
    case _ => Err(IncludesNotAFunction)
  }

  /** `buscarMatriculaContratoFamilia` once the GET settled: the first
      element's `matricula_contrato_familia` when the body is a non-empty
      array, `null` otherwise; reading the property of a `null` first element
      throws inside the `try` and also gives `null`. */
  function MatriculaFromResponse(o: Outcome): (r: JsVal)
    ensures Truthy(r) ==>
      && o.Resolved? && o.reply.data.Arr? && |o.reply.data.items| > 0
      && o.reply.data.items[0].Obj? && r == Prop(o.reply.data.items[0], MatriculaKey)
    ensures o.Rejected? ==> r == Null
  {
    match o
    case Rejected(_, _) => Null
    case Resolved(reply) =>
      if !reply.data.Arr? || |reply.data.items| == 0 then Null
      else if Nullish(reply.data.items[0]) then Null
      else Prop(reply.data.items[0], MatriculaKey)
  }

  /** The contract number the partner lists for a family is what the lookup
      returns, whatever else the array holds. */
  lemma MatriculaRoundTrip(m: JsVal, fields: map<string, JsVal>, rest: seq<JsVal>, status: int)
    ensures MatriculaFromResponse(Resolved(Reply(status, Arr([Obj(fields[MatriculaKey := m])] + rest)))) == m
  {
  }

  /** `Number(get(r, 'tipo_usuario')) !== 1`. */
  predicate IsDependentRow(row: Row) {
    ToNumber(Col(row, "tipo_usuario")) != Num(1)
  }

  // ------------------------------------------------------------ URLs

  /** `s.replace(/\/+$/, '')`. */
  function StripTrailingSlashes(s: string): (r: string)
    ensures |r| <= |s|
    ensures r == [] || r[|r| - 1] != '/'
    ensures s == r + Repeat('/', |s| - |r|)
  {
    if s != [] && s[|s| - 1] == '/' then
      var r := StripTrailingSlashes(s[..|s| - 1]);
      assert s == s[..|s| - 1] + ['/'];
      assert Repeat('/', |s| - |r|) == Repeat('/', |s| - 1 - |r|) + ['/'];
      r
    else
      assert Repeat('/', 0) == [];
      s
  }

  /** Stripping is idempotent: a stripped base gets nothing more removed. */
  lemma StripTrailingSlashesIdempotent(s: string)
    ensures StripTrailingSlashes(StripTrailingSlashes(s)) == StripTrailingSlashes(s)
  {
  }

  function AssociadoPJUrl(env: Env): string {
    env.baseApiV3 + "/AssociadoPJ?token=" + env.s4eToken
  }

  /** `encodeURIComponent('[27543, 27552]')`. */
  const EmpresasParam := "%5B27543%2C%2027552%5D"

  function AssociadoEmpUrl(env: Env, cpf: string): string {
    env.baseApiV3 + "/associado-Emp?cpf=" + cpf + "&empresas=" + EmpresasParam
  }

  /** The NovoDependente URL: the S4E base (or its default) without trailing
      slashes, then the path. */
  function NovoDependenteUrl(env: Env): (url: string)
    ensures exists b :: && url == b + "/api/vendedor/NovoDependente?token=" + env.s4eToken
                        && (b == [] || b[|b| - 1] != '/')
  {
    var raw := if env.s4eBase != "" then env.s4eBase else DefaultS4eBase;
    var b := StripTrailingSlashes(raw);
    b + "/api/vendedor/NovoDependente?token=" + env.s4eToken
  }

  // ------------------------------------------------------------ one family

  /** The AssociadoPJ entry of a family, recorded before it is sent. */
  function PjEntry(f: Family, ceps: map<string, Row>, env: Env): Entry {
    AssociadoPJ(f.key, S4eTokenOrPlaceholder(env.s4eToken), FamilyDados(f, ceps, Dispatch))
  }

  /** The AssociadoPJ send of a family and what came back. */
  function VidaSent(f: Family, ceps: map<string, Row>, env: Env, p: Partner): Sent {
    SendVida(TitularContexto(f.titular), p.associadoPJ(AssociadoPJUrl(env), FamilyDados(f, ceps, Dispatch)), p.stringify)
  }

  /** The family's contract number, looked up by the titular's CPF. */
  function FamilyMatricula(f: Family, env: Env, p: Partner): JsVal {
    MatriculaFromResponse(p.associadoEmp(AssociadoEmpUrl(env, TitularContexto(f.titular).cpf)))
  }

  /** The rows sent to NovoDependente: every non-titular row of the family. */
  function Dependents(rows: seq<Row>): (deps: seq<Row>)
    ensures |deps| <= |rows|
  {
    Seqs.Filter(IsDependentRow, rows)
  }

  function DependentEntry(f: Family, m: JsVal, env: Env, dep: Row): Entry {
    NovoDependente(f.key, env.s4eToken, BuildNovoDependente(dep, f.titular, m))
  }

  function DependentLog(f: Family, m: JsVal, env: Env, p: Partner, dep: Row): BenefLog {
    SendDependent(DependentContexto(dep, f.titular),
      p.novoDependente(NovoDependenteUrl(env), BuildNovoDependente(dep, f.titular, m)), p.stringify)
  }

  /** The loop over `dependentes`: one NovoDependente entry and one audit row
      per dependent, in order. */
  function SendDependents(f: Family, m: JsVal, env: Env, p: Partner): (r: Run)
    ensures |r.entries| == |r.audit| == |Dependents(f.rows)| && r.error.None?
  {
    var deps := Dependents(f.rows);
    Run(Seqs.Map(dep => DependentEntry(f, m, env, dep), deps),
        Seqs.Map(dep => DependentLog(f, m, env, p, dep), deps),
        None)
  }
}
