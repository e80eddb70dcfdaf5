/** What VerificaDepartamentos.js and CorrigeDepartamentos.js share: a row of
    `odonto_depart`, and the lookup of the partner's department by CNPJ
    (`getDepartamentoRemotoPorCnpj`) with the fields read from its answer. */
module DepartRemote {
  import opened Wrappers
  import opened Text
  import opened JsValues
  import opened Http

  /** A row of `odonto_depart` with a non-null CNPJ: its two columns. */
  datatype Stored = Stored(id: JsVal, cnpj: JsVal)

  /** `row.ID_ODONTO ?? row.id_odonto ?? null` and `row.CNPJ ?? row.cnpj`:
      the columns whichever case the driver gives their names. */
  function ReadStored(row: Row): (s: Stored)
    ensures !Nullish(Field(row, "ID_ODONTO")) ==> s.id == Field(row, "ID_ODONTO")
    ensures Nullish(Field(row, "ID_ODONTO")) && !Nullish(Field(row, "id_odonto")) ==> s.id == Field(row, "id_odonto")
    ensures Nullish(Field(row, "ID_ODONTO")) && Nullish(Field(row, "id_odonto")) ==> s.id == Null
    ensures !Nullish(Field(row, "CNPJ")) ==> s.cnpj == Field(row, "CNPJ")
    ensures Nullish(Field(row, "CNPJ")) ==> s.cnpj == Field(row, "cnpj")
  {
    Stored(Coalesce(Coalesce(Field(row, "ID_ODONTO"), Field(row, "id_odonto")), Null),
           Coalesce(Field(row, "CNPJ"), Field(row, "cnpj")))
  }

  /** `idLocal`: the stored id, `null` when absent. */
  function IdLocal(s: Stored): (id: JsVal)
    ensures id != Undef
    ensures Truthy(id) <==> Truthy(s.id)
    ensures Truthy(s.id) ==> id == s.id
  {
    Coalesce(s.id, Null)
  }

  /** `cnpjLocal`: the digits of the stored CNPJ. */
  function CnpjLocal(s: Stored): (c: string)
    ensures AllDigits(c)
    ensures s.cnpj.Str? && AllDigits(s.cnpj.s) ==> c == s.cnpj.s
  {
    OnlyDigits(s.cnpj)
  }

  predicate HasCnpj(s: Stored) {
    CnpjLocal(s) != ""
  }

  /** `ODONTO_BASE_APIV3`, `ODONTO_APIV3_TOKEN` and `ODONTO_EMPRESA_CODE`,
      "" when unset. */
  datatype Env = Env(base: string, token: string, empresa: string)

  const DefaultEmpresa := "27552"

  /** `process.env.ODONTO_EMPRESA_CODE || '27552'`. */
  function Empresa(env: Env): (e: string)
    ensures e != ""
    ensures env.empresa != "" ==> e == env.empresa
    ensures env.empresa == "" ==> e == DefaultEmpresa
  {
    if env.empresa != "" then env.empresa else DefaultEmpresa
  }

  /** `${baseUrl}/departamento?empresa=${empresa}&cnpj=${cnpj}`: the URL
      splits into the base and path, the company code (the configured one or
      27552) and the CNPJ parameter. */
  function DepartamentoUrl(env: Env, cnpj: string): (url: string)
    ensures StartsWith(url, env.base + "/departamento?empresa=")
    ensures EndsWith(url, "&cnpj=" + cnpj)
    ensures |env.base + "/departamento?empresa="| + |"&cnpj=" + cnpj| <= |url|
    ensures url[|env.base + "/departamento?empresa="|..|url| - |"&cnpj=" + cnpj|] == Empresa(env)
  {
    var prefix := env.base + "/departamento?empresa=";
    var suffix := "&cnpj=" + cnpj;
    var url := prefix + Empresa(env) + suffix;
    assert url[..|prefix|] == prefix;
    assert url[|url| - |suffix|..] == suffix;
    assert url[|prefix|..|url| - |suffix|] == Empresa(env);
    url
  }

  /** The partner's department as read from the answer: `depIdRemoto`,
      `cnpjRemoto` and the raw body. */
  datatype Remote = Remote(depId: JsVal, cnpj: string, raw: JsVal)

  /** The lookup either yields the department or fails; a failure carries
      `err.response?.status` and `err.response?.data || err.message`. */
  datatype Fetched = Got(remote: Remote) | Failed(status: JsVal, resposta: JsVal)

  /** `remoto.depId ?? remoto.depid ?? remoto.DepId ?? null` (note the order
      differs from the POST side). */
  function RemoteDepId(data: JsVal): (r: JsVal)
    ensures r != Undef
    ensures !Nullish(Prop(data, "depId")) ==> r == Prop(data, "depId")
  {
    Coalesce(Coalesce(Coalesce(Prop(data, "depId"), Prop(data, "depid")), Prop(data, "DepId")), Null)
  }

  /** `onlyDigits(remoto.CNPJ ?? remoto.cnpj ?? remoto.nr_cgc ?? remoto.NR_CGC)`. */
  function RemoteCnpj(data: JsVal): (c: string)
    ensures AllDigits(c)
  {
    OnlyDigits(Coalesce(Coalesce(Coalesce(Prop(data, "CNPJ"), Prop(data, "cnpj")), Prop(data, "nr_cgc")), Prop(data, "NR_CGC")))
  }

  /** The TypeError thrown by reading `remoto.depId` on a null body. */
  function NullBodyMessage(data: JsVal): string {
    "Cannot read properties of " + ToStr(data) + " (reading 'depId')"
  }

  /** `getDepartamentoRemotoPorCnpj` and the reading of its answer, as the
      `try` block sees them: a missing base URL or token throws
      `configMessage` without a request; a rejected request fails with the
      response's status and body (or the error message); a null body fails
      on the first property read; anything else is the department. `api`
      is the partner's answer to a GET of a URL. */
  function Fetch(env: Env, api: string -> Outcome, configMessage: string, cnpj: string): (f: Fetched)
    ensures env.base == "" || env.token == "" ==> f == Failed(Undef, Str(configMessage))
    ensures f.Got? <==>
      env.base != "" && env.token != "" && api(DepartamentoUrl(env, cnpj)).Resolved?
      && !Nullish(api(DepartamentoUrl(env, cnpj)).reply.data)
    ensures f.Got? ==> f.remote.raw == api(DepartamentoUrl(env, cnpj)).reply.data && AllDigits(f.remote.cnpj)
    ensures f.Failed? && env.base != "" && env.token != "" && api(DepartamentoUrl(env, cnpj)).Rejected? ==>
      var resp := api(DepartamentoUrl(env, cnpj)).response;
      f.status == (if resp.Some? then Num(resp.value.status) else Undef)
  {
    if env.base == "" || env.token == "" then Failed(Undef, Str(configMessage))
    else
      match api(DepartamentoUrl(env, cnpj))
      case Rejected(response, message) =>
        Failed(if response.Some? then Num(response.value.status) else Undef,
               Or(if response.Some? then response.value.data else Undef, Str(message)))
      case Resolved(reply) =>
        if Nullish(reply.data) then Failed(Undef, Str(NullBodyMessage(reply.data)))
        else Got(Remote(RemoteDepId(reply.data), RemoteCnpj(reply.data), reply.data))
  }
}
