/** `enviarDepartamentos` (GeraDepartamentos.js): every pending company is
    POSTed to the partner's `/departamento`; the department id that comes
    back, or that a GET finds when the partner says the CNPJ already exists,
    is merged into the local `odonto_depart` table. */
module Departamentos {
  import opened Wrappers
  import opened Text
  import opened JsValues
  import opened Http
  import Seqs

  // ------------------------------------------------------------ request body

  /** The `get` local to `mapRowToBody`: the value of the first key that is
      not `undefined`, or `undefined`. Unlike the controllers' `get`, keys are
      tried exactly as written. */
  function FirstDefined(row: Row, keys: seq<string>): (r: JsVal)
    ensures r == Undef ==> forall j :: 0 <= j < |keys| ==> Field(row, keys[j]) == Undef
  {
    if keys == [] then Undef
    else if Field(row, keys[0]) != Undef then Field(row, keys[0])
    else FirstDefined(row, keys[1..])
  }

  /** A defined result is the value under the first defined key. */
  lemma {:induction false} FirstDefinedIsFirst(row: Row, keys: seq<string>)
    requires FirstDefined(row, keys) != Undef
    ensures exists j :: FirstDefinedAt(row, keys, j) && FirstDefined(row, keys) == Field(row, keys[j])
  {
    if Field(row, keys[0]) != Undef {
      assert FirstDefinedAt(row, keys, 0);
    } else {
      FirstDefinedIsFirst(row, keys[1..]);
      var j :| FirstDefinedAt(row, keys[1..], j) && FirstDefined(row, keys[1..]) == Field(row, keys[1..][j]);
      assert FirstDefinedAt(row, keys, j + 1);
    }
  }

  /** The source's own `get`, as written: `keys.reduce((v, k) => (v !==
      undefined ? v : r[k]), undefined)`, a left fold that keeps the first
      defined value it meets. */
  function ReduceGet(row: Row, acc: JsVal, keys: seq<string>): JsVal
    decreases |keys|
  {
    if keys == [] then acc
    else ReduceGet(row, if acc != Undef then acc else Field(row, keys[0]), keys[1..])
  }

  /** Once the fold holds a defined value, no later key changes it. */
  lemma {:induction false} ReduceGetKeeps(row: Row, acc: JsVal, keys: seq<string>)
    requires acc != Undef
    ensures ReduceGet(row, acc, keys) == acc
  {
    if keys != [] {
      ReduceGetKeeps(row, acc, keys[1..]);
    }
  }

  /** The fold from `undefined` is the first defined value. */
  lemma {:induction false} FirstDefinedIsReduce(row: Row, keys: seq<string>)
    ensures ReduceGet(row, Undef, keys) == FirstDefined(row, keys)
  {
    if keys != [] {
      if Field(row, keys[0]) != Undef {
        ReduceGetKeeps(row, Field(row, keys[0]), keys[1..]);
      } else {
        FirstDefinedIsReduce(row, keys[1..]);
      }
    }
  }

  /** `v` is what the lookup over `keys` yields: `undefined` when every key
      is, otherwise the value under the first key that is not. */
  ghost predicate TakenFrom(row: Row, keys: seq<string>, v: JsVal) {
    || (v == Undef && forall j :: 0 <= j < |keys| ==> Field(row, keys[j]) == Undef)
    || (exists j :: FirstDefinedAt(row, keys, j) && v == Field(row, keys[j]))
  }

  /** The lookup's result always has the shape `TakenFrom` describes. */
  lemma FirstDefinedTaken(row: Row, keys: seq<string>)
    ensures TakenFrom(row, keys, FirstDefined(row, keys))
  {
    if FirstDefined(row, keys) != Undef {
      FirstDefinedIsFirst(row, keys);
    }
  }

  const CdEmpresaKeys := ["CD_EMPRESA", "Cd_empresa", "cd_empresa"]
  const NomeKeys := ["NOME", "nome"]
  const CgcKeys := ["NR_CGC", "Nr_cgc", "nr_cgc"]
  const CdOrgaoKeys := ["CD_ORGAO", "Cd_orgao", "cd_orgao"]
  const CdGrupoKeys := ["CD_GRUPO", "Cd_grupo", "cd_grupo"]
  const TpempresaKeys := ["TPEMPRESA", "tpempresa", "Tpempresa"]
  const ClassificacaoKeys := ["CLASSIFICACAO", "classificacao", "Classificacao"]
  const IsCaepfKeys := ["ISCAEPF", "isCAEPF", "ISCAEPF"]

  /** The body POSTed to `/departamento`. */
  datatype Body = Body(
    cdEmpresa: JsVal,
    nome: JsVal,
    nrCgc: JsVal,
    cdOrgao: JsVal,
    cdGrupo: JsVal,
    tpempresa: JsVal,
    classificacao: JsVal,
    isCAEPF: JsVal)

  /** `mapRowToBody(row)`: each field from its first defined spelling, as
      the source's fold finds it; a name that is not null or undefined is
      stringified and cut to 70 characters. */
  function MapRowToBody(row: Row): (b: Body)
    ensures b.cdEmpresa == ReduceGet(row, Undef, CdEmpresaKeys)
    ensures b.nrCgc == ReduceGet(row, Undef, CgcKeys)
    ensures b.cdOrgao == ReduceGet(row, Undef, CdOrgaoKeys)
    ensures b.cdGrupo == ReduceGet(row, Undef, CdGrupoKeys)
    ensures b.tpempresa == ReduceGet(row, Undef, TpempresaKeys)
    ensures b.classificacao == ReduceGet(row, Undef, ClassificacaoKeys)
    ensures b.isCAEPF == ReduceGet(row, Undef, IsCaepfKeys)
    ensures var nome := ReduceGet(row, Undef, NomeKeys);
      && (Nullish(nome) ==> b.nome == nome)
      && (!Nullish(nome) ==>
            && b.nome.Str? && b.nome.s <= ToStr(nome)
            && |b.nome.s| == (if |ToStr(nome)| <= NameLimit then |ToStr(nome)| else NameLimit))
  {
    var nome := FirstDefined(row, NomeKeys);
    TakeIsPrefix(ToStr(nome), NameLimit);
    FirstDefinedIsReduce(row, CdEmpresaKeys);
    FirstDefinedIsReduce(row, NomeKeys);
    FirstDefinedIsReduce(row, CgcKeys);
    FirstDefinedIsReduce(row, CdOrgaoKeys);
    FirstDefinedIsReduce(row, CdGrupoKeys);
    FirstDefinedIsReduce(row, TpempresaKeys);
    FirstDefinedIsReduce(row, ClassificacaoKeys);
    FirstDefinedIsReduce(row, IsCaepfKeys);
    Body(
      cdEmpresa := FirstDefined(row, CdEmpresaKeys),
      nome := if Nullish(nome) then nome else Str(Take(ToStr(nome), NameLimit)),
      nrCgc := FirstDefined(row, CgcKeys),
      cdOrgao := FirstDefined(row, CdOrgaoKeys),
      cdGrupo := FirstDefined(row, CdGrupoKeys),
      tpempresa := FirstDefined(row, TpempresaKeys),
      classificacao := FirstDefined(row, ClassificacaoKeys),
      isCAEPF := FirstDefined(row, IsCaepfKeys))
  }

  /** Every field of the body but the name is `undefined` exactly when all of
      its spellings are, and otherwise the value under its first defined
      spelling; the name is cut from the value found the same way. */
  lemma MapRowToBodyFields(row: Row)
    ensures var b := MapRowToBody(row);
      && TakenFrom(row, CdEmpresaKeys, b.cdEmpresa)
      && TakenFrom(row, CgcKeys, b.nrCgc)
      && TakenFrom(row, CdOrgaoKeys, b.cdOrgao)
      && TakenFrom(row, CdGrupoKeys, b.cdGrupo)
      && TakenFrom(row, TpempresaKeys, b.tpempresa)
      && TakenFrom(row, ClassificacaoKeys, b.classificacao)
      && TakenFrom(row, IsCaepfKeys, b.isCAEPF)
      && TakenFrom(row, NomeKeys, FirstDefined(row, NomeKeys))
  {
    FirstDefinedTaken(row, CdEmpresaKeys);
    FirstDefinedTaken(row, CgcKeys);
    FirstDefinedTaken(row, CdOrgaoKeys);
    FirstDefinedTaken(row, CdGrupoKeys);
    FirstDefinedTaken(row, TpempresaKeys);
    FirstDefinedTaken(row, ClassificacaoKeys);
    FirstDefinedTaken(row, IsCaepfKeys);
    FirstDefinedTaken(row, NomeKeys);
  }

  /** `cnpjLimpo`: the digits of the row's CNPJ. */
  function RowCnpj(row: Row): (c: string)
    ensures AllDigits(c)
  {
    OnlyDigits(FirstDefined(row, CgcKeys))
  }

  predicate HasCnpj(row: Row) {
    RowCnpj(row) != ""
  }

  // ------------------------------------------------------------ local table

  /** `odonto_depart`: CNPJ to `id_odonto`, which may be NULL. */
  type DepartTable = map<string, Option<JsVal>>

  /** `upsertOdontoDepart(depId, cnpj)`: with an id, MERGE sets the CNPJ's id
      whether or not the CNPJ was there; without one, the CNPJ is inserted
      with a NULL id only if absent. No other CNPJ is touched. */
  function Upsert(t: DepartTable, depId: JsVal, cnpj: string): (r: DepartTable)
    ensures r.Keys == t.Keys + {cnpj}
    ensures !Nullish(depId) ==> r[cnpj] == Some(depId)
    ensures Nullish(depId) ==> r[cnpj] == if cnpj in t then t[cnpj] else None
    ensures forall k :: k in t && k != cnpj ==> r[k] == t[k]
  {
    if !Nullish(depId) then t[cnpj := Some(depId)]
    else if cnpj in t then t
    else t[cnpj := None]
  }

  /** MERGE is idempotent: merging the same id twice is merging it once. */
  lemma UpsertIdempotent(t: DepartTable, depId: JsVal, cnpj: string)
    ensures Upsert(Upsert(t, depId, cnpj), depId, cnpj) == Upsert(t, depId, cnpj)
  {
  }

  // ------------------------------------------------------------ API results

  /** `data.depid ?? data.depId ?? data.DepId ?? null`. */
  function DepIdOf(data: JsVal): (r: JsVal)
    ensures r != Undef
    ensures !Nullish(Prop(data, "depid")) ==> r == Prop(data, "depid")
    ensures Nullish(Prop(data, "depid")) && !Nullish(Prop(data, "depId")) ==> r == Prop(data, "depId")
    ensures Nullish(Prop(data, "depid")) && Nullish(Prop(data, "depId")) && !Nullish(Prop(data, "DepId")) ==>
      r == Prop(data, "DepId")
    ensures Nullish(r) <==> Nullish(Prop(data, "depid")) && Nullish(Prop(data, "depId")) && Nullish(Prop(data, "DepId"))
    ensures Nullish(r) ==> r == Null
  {
    Coalesce(Coalesce(Coalesce(Prop(data, "depid"), Prop(data, "depId")), Prop(data, "DepId")), Null)
  }

  /** What `postDepartamento` and `getDepartamentoPorCnpj` return. */
  datatype ApiResult = ApiResult(ok: bool, found: bool, depid: JsVal, status: JsVal, data: JsVal, errorMessage: JsVal)

  /** The result of either call once it settled: on success the body (or
      `{}`) and its department id; on failure no id, the response's status
      and body if there was a response, and the error's message. */
  function ApiOutcome(o: Outcome): (r: ApiResult)
    ensures r.ok <==> o.Resolved?
    ensures r.found <==> Truthy(r.depid)
    ensures !r.ok ==> r.depid == Null
    ensures o.Resolved? ==>
      && r.data == Or(o.reply.data, EmptyObject)
      && r.depid == DepIdOf(r.data)
      && r.status == Num(o.reply.status)
    ensures o.Rejected? ==> r.errorMessage == Str(o.message)
    ensures o.Rejected? && o.response.Some? ==>
      r.status == Num(o.response.value.status) && r.data == o.response.value.data
    ensures o.Rejected? && o.response.None? ==> r.status == Undef && r.data == Undef
  {
    match o
    case Resolved(reply) =>
      var data := Or(reply.data, EmptyObject);
      var depid := DepIdOf(data);
      ApiResult(true, Truthy(depid), depid, Num(reply.status), data, Undef)
    case Rejected(response, message) =>
      ApiResult(false, false, Null,
        if response.Some? then Num(response.value.status) else Undef,
        if response.Some? then response.value.data else Undef,
        Str(message))
  }

  const AlreadyExists := "J\U{00E1} existe um Departamento cadastrado com esse CNPJ"
  const IncludesNotAFunction := "msg.includes is not a function"

  /** The error message of a failed POST: the body as JSON when it is an
      array, else its `Erro`, else its `error`, else the body as JSON. */
  function PostMessage(data: JsVal, stringify: JsVal -> string): (m: JsVal)
    ensures data.Arr? && stringify(data) != "" ==> m == Str(stringify(data))
  {
    var asArray := if data.Arr? then Str(stringify(data)) else Bool(false);
    Or(Or(Or(asArray, OptProp(data, "Erro")), OptProp(data, "error")), Str(stringify(Or(data, Str("")))))
  }

  /** `jaExiste`: status 400 and a message mentioning the existing CNPJ. A
      truthy message that is neither a string nor an array has no
      `includes`, and the call throws. */
  function JaExiste(status: JsVal, msg: JsVal): (r: Result<bool>)
    ensures r == Ok(true) <==>
      status == Num(400) && ((msg.Str? && Contains(msg.s, AlreadyExists)) || (msg.Arr? && Str(AlreadyExists) in msg.items))
    ensures r.Err? <==> status == Num(400) && Truthy(msg) && !msg.Str? && !msg.Arr?
  {
    if status != Num(400) || !Truthy(msg) then Ok(false)
    else
      match msg
      case Str(s) => Ok(Contains(s, AlreadyExists))
      case Arr(items) => Ok(Str(AlreadyExists) in items)
      case _ => Err(IncludesNotAFunction)
  }

  // ------------------------------------------------------------ log files

  /** The CNPJ a log file is named after: the digits, or 'sem_cnpj'. */
  function CleanCnpj(v: JsVal): (r: string)
    ensures r != ""
    ensures r == "sem_cnpj" || AllDigits(r)
    ensures v.Str? && v.s != "" && AllDigits(v.s) ==> r == v.s
  {
    var d := OnlyDigits(Or(v, Str("sem_cnpj")));
    if d == "" then "sem_cnpj" else d
  }

  /** The JSON of a success or an error log file (its timestamp is left out). */
  datatype DepartLog =
    | Sucesso(cnpj: string, nome: JsVal, depId: JsVal, origem: string, httpStatus: JsVal, response: JsVal)
    | Erro(cnpj: string, nome: JsVal, httpStatus: JsVal, mensagem: JsVal, response: JsVal)

  function SuccessLog(cnpj: string, nome: JsVal, depId: JsVal, origem: string, status: JsVal, response: JsVal)
    : (l: DepartLog)
    ensures l.Sucesso? && l.cnpj != "" && l.origem != ""
  {
    Sucesso(CleanCnpj(Str(cnpj)), Or(nome, Null), Coalesce(depId, Null), if origem != "" then origem else "POST",
      Coalesce(status, Null), Or(response, Null))
  }

  function ErrorLog(cnpj: string, nome: JsVal, status: JsVal, mensagem: JsVal, response: JsVal): (l: DepartLog)
    ensures l.Erro? && l.cnpj != ""
  {
    Erro(CleanCnpj(Str(cnpj)), Or(nome, Null), Coalesce(status, Null), Or(mensagem, Null), Or(response, Null))
  }

  // ------------------------------------------------------------ the loop

  /** The partner's answers to a POST of a body and to a GET by CNPJ, and
      `JSON.stringify`. */
  datatype Partner = Partner(post: Body -> Outcome, get: string -> Outcome, stringify: JsVal -> string)

  /** The loop's state: the table, the two counters, the log files written,
      the CNPJs looked up by GET, and the error that ended the run. */
  datatype State = State(
    table: DepartTable,
    okCount: nat,
    errCount: nat,
    logs: seq<DepartLog>,
    gets: seq<string>,
    error: Option<string>)

  const GetWithoutId := "GET n\U{00E3}o retornou depId"
  const PostFailed := "Falha no POST"

  /** The GET branch, taken when the partner says the CNPJ already exists. */
  function AfterGet(st: State, cnpj: string, nome: JsVal, g: ApiResult): (r: State)
    ensures r.gets == st.gets && r.error == st.error
    ensures r.okCount + r.errCount == st.okCount + st.errCount + 1
  {
    if g.ok && g.found && Truthy(g.depid) then
      st.(table := Upsert(st.table, g.depid, cnpj), okCount := st.okCount + 1,
          logs := st.logs + [SuccessLog(cnpj, nome, g.depid, "GET", g.status, g.data)])
    else
      st.(errCount := st.errCount + 1,
          logs := st.logs + [ErrorLog(cnpj, nome, g.status, Or(g.errorMessage, Str(GetWithoutId)), g.data)])
  }

  /** What happens to a row with CNPJ `cnpj` once its POST settled as
      `post`, with `msg` the POST's error message, `decision` the
      `jaExiste` test and `g` what a GET by the CNPJ would return. */
  function RowStep(st: State, cnpj: string, nome: JsVal, post: ApiResult, msg: JsVal, decision: Result<bool>,
                   g: ApiResult): (r: State)
  {
    if post.ok && Truthy(post.depid) then
      st.(table := Upsert(st.table, post.depid, cnpj), okCount := st.okCount + 1,
          logs := st.logs + [SuccessLog(cnpj, nome, post.depid, "POST", post.status, post.data)])
    else
      match decision
      case Err(e) => st.(error := Some(e))
      case Ok(exists_) =>
        if exists_ then AfterGet(st.(gets := st.gets + [cnpj]), cnpj, nome, g)
        else
          st.(errCount := st.errCount + 1,
              logs := st.logs + [ErrorLog(cnpj, nome, post.status, Or(Or(msg, post.errorMessage), Str(PostFailed)), post.data)])
  }

  /** The shape of one row's step: a successful POST merges its id with no
      GET; a GET is made only on a positive `jaExiste`; unless the run
      fails, exactly one counter moves; only `cnpj`'s entry can change. */
  lemma RowStepShape(st: State, cnpj: string, nome: JsVal, post: ApiResult, msg: JsVal, decision: Result<bool>,
                     g: ApiResult)
    requires st.error.None?
    ensures var r := RowStep(st, cnpj, nome, post, msg, decision, g);
      && (post.ok && Truthy(post.depid) ==>
           r.table == Upsert(st.table, post.depid, cnpj) && r.okCount == st.okCount + 1 && r.gets == st.gets)
      && (r.gets != st.gets ==> r.gets == st.gets + [cnpj] && !(post.ok && Truthy(post.depid)) && decision == Ok(true))
      && (r.error.None? ==> r.okCount + r.errCount == st.okCount + st.errCount + 1)
      && (r.error.Some? ==> decision.Err?)
      && r.table.Keys <= st.table.Keys + {cnpj}
      && (forall k :: k in st.table && k != cnpj ==> k in r.table && r.table[k] == st.table[k])
  {
  }

  /** One iteration over a pending row; a row without CNPJ digits is
      skipped. */
  function Step(p: Partner, st: State, row: Row): (r: State)
    ensures st.error.None? && !HasCnpj(row) ==> r == st
  {
    if st.error.Some? then st
    else
      var body := MapRowToBody(row);
      var cnpj := OnlyDigits(body.nrCgc);
      if cnpj == "" then st
      else
        var post := ApiOutcome(p.post(body));
        var msg := PostMessage(post.data, p.stringify);
        RowStep(st, cnpj, Or(body.nome, Null), post, msg, JaExiste(post.status, msg), ApiOutcome(p.get(cnpj)))
  }

  /** The step of a row with a CNPJ is the row step of its POST. */
  lemma StepIsRowStep(p: Partner, st: State, row: Row)
    requires st.error.None? && HasCnpj(row)
    ensures var body := MapRowToBody(row);
      var post := ApiOutcome(p.post(body));
      var msg := PostMessage(post.data, p.stringify);
      Step(p, st, row) ==
        RowStep(st, RowCnpj(row), Or(body.nome, Null), post, msg, JaExiste(post.status, msg), ApiOutcome(p.get(RowCnpj(row))))
  {
  }

  /** A successful POST merges the id it returned, with no GET; unless the
      run fails, exactly one counter moves; only the row's CNPJ entry can
      change. */
  lemma StepCounts(p: Partner, st: State, row: Row)
    requires st.error.None? && HasCnpj(row)
    ensures var r := Step(p, st, row);
      var post := ApiOutcome(p.post(MapRowToBody(row)));
      && (post.ok && Truthy(post.depid) ==>
           r.table == Upsert(st.table, post.depid, RowCnpj(row)) && r.okCount == st.okCount + 1 && r.gets == st.gets)
      && (r.error.None? ==> r.okCount + r.errCount == st.okCount + st.errCount + 1)
      && r.table.Keys <= st.table.Keys + {RowCnpj(row)}
      && (forall k :: k in st.table && k != RowCnpj(row) ==> k in r.table && r.table[k] == st.table[k])
  {
    var body := MapRowToBody(row);
    var post := ApiOutcome(p.post(body));
    var msg := PostMessage(post.data, p.stringify);
    StepIsRowStep(p, st, row);
    RowStepShape(st, RowCnpj(row), Or(body.nome, Null), post, msg, JaExiste(post.status, msg), ApiOutcome(p.get(RowCnpj(row))));
  }

  /** A GET by the row's CNPJ follows only a 400 whose message names the
      existing CNPJ, and the run fails only when that message is truthy but
      neither a string nor an array. */
  lemma StepGets(p: Partner, st: State, row: Row)
    requires st.error.None? && HasCnpj(row)
    ensures var r := Step(p, st, row);
      var post := ApiOutcome(p.post(MapRowToBody(row)));
      var msg := PostMessage(post.data, p.stringify);
      && (r.gets != st.gets ==>
           r.gets == st.gets + [RowCnpj(row)] && post.status == Num(400) && JaExiste(post.status, msg) == Ok(true))
      && (r.error.Some? ==> post.status == Num(400) && Truthy(msg) && !msg.Str? && !msg.Arr?)
  {
    var body := MapRowToBody(row);
    var post := ApiOutcome(p.post(body));
    var msg := PostMessage(post.data, p.stringify);
    StepIsRowStep(p, st, row);
    RowStepShape(st, RowCnpj(row), Or(body.nome, Null), post, msg, JaExiste(post.status, msg), ApiOutcome(p.get(RowCnpj(row))));
  }

  function Loop(p: Partner, t0: DepartTable, rows: seq<Row>): State {
    if rows == [] then State(t0, 0, 0, [], [], None)
    else Step(p, Loop(p, t0, rows[..|rows| - 1]), rows[|rows| - 1])
  }

  /** `enviarDepartamentos`: nothing happens without the base URL and token,
      or without pending rows. */
  function Run(p: Partner, base: string, token: string, t0: DepartTable, rows: seq<Row>): (r: State)
    ensures base == "" || token == "" || rows == [] ==> r == State(t0, 0, 0, [], [], None)
  {
    if base == "" || token == "" || rows == [] then State(t0, 0, 0, [], [], None)
    else Loop(p, t0, rows)
  }

  /** The CNPJs of the rows that have one. */
  ghost function CnpjsOf(rows: seq<Row>): set<string> {
    set r | r in rows && HasCnpj(r) :: RowCnpj(r)
  }

  /** Over a whole run: unless it failed, each row with a CNPJ moved exactly
      one counter, so the counters never exceed the rows; and no CNPJ outside
      the rows gained, lost or changed an entry. */
  lemma {:induction false} LoopCountsAndFrame(p: Partner, t0: DepartTable, rows: seq<Row>)
    ensures var r := Loop(p, t0, rows);
      && (r.error.None? ==> r.okCount + r.errCount == Seqs.Count(HasCnpj, rows) <= |rows|)
      && (forall k :: k !in CnpjsOf(rows) ==> (k in r.table <==> k in t0))
      && (forall k :: k in t0 && k !in CnpjsOf(rows) ==> r.table[k] == t0[k])
  {
    if rows != [] {
      var init, x := rows[..|rows| - 1], rows[|rows| - 1];
      assert rows == init + [x];
      LoopCountsAndFrame(p, t0, init);
      var st := Loop(p, t0, init);
      CountAppend(init, x);
      assert forall k :: k in CnpjsOf(init) ==> k in CnpjsOf(rows) by {
        forall k | k in CnpjsOf(init) ensures k in CnpjsOf(rows) {
          var y :| y in init && HasCnpj(y) && RowCnpj(y) == k;
          assert y in rows;
        }
      }
      if st.error.None? && HasCnpj(x) {
        StepCounts(p, st, x);
        assert RowCnpj(x) in CnpjsOf(rows);
      }
    }
  }

  lemma CountAppend(rows: seq<Row>, x: Row)
    ensures Seqs.Count(HasCnpj, rows + [x]) == Seqs.Count(HasCnpj, rows) + (if HasCnpj(x) then 1 else 0)
  {
    Seqs.FilterAppend(HasCnpj, rows, [x]);
    Seqs.FilterCount(HasCnpj, rows + [x]);
    Seqs.FilterCount(HasCnpj, rows);
    assert Seqs.Filter(HasCnpj, [x]) == if HasCnpj(x) then [x] else [] by {
      assert [x][1..] == [];
    }
  }
}
