/** src/controllers/BeneficiarioController.js: `incluirBeneficiario`, which
    assembles one beneficiary's registration from the database, the CEP and
    company lookups and sends it to the partner. Every collaborator is an
    input: what it answers, or the message of what it throws. */
module BeneficiarioController {
  import opened Wrappers
  import opened Text
  import opened JsValues
  import opened Http
  import BeneficiarioModel

  // ------------------------------------------------------------ messages

  const NotFound := "Benefici\U{00E1}rio n\U{00E3}o encontrado."
  const BadCep := "CEP inv\U{00E1}lido ou n\U{00E3}o encontrado."
  const CompanyFailed := "Erro ao consultar informa\U{00E7}\U{00F5}es da empresa."

  /** The `TypeError` JavaScript throws when reading `key` of `null` or
      `undefined`. */
  function ReadError(v: JsVal, key: string): string {
    "Cannot read properties of " + (if v.Null? then "null" else "undefined") + " (reading '" + key + "')"
  }

  // ------------------------------------------------------------ small rules

  /** `obj.k = x`: a property write on an object; on a primitive it is
      silently dropped (the module is not in strict mode). */
  function SetProp(v: JsVal, k: string, x: JsVal): (r: JsVal)
    ensures v.Obj? ==> r.Obj? && Prop(r, k) == x
    ensures v.Obj? ==> forall j :: j != k ==> Prop(r, j) == Prop(v, j)
    ensures !v.Obj? ==> r == v
  {
    if v.Obj? then Obj(v.fields[k := x]) else v
  }

  /** `v[0]`: the first element of an array, the property "0" of an object,
      the first character of a string, `undefined` otherwise. */
  function First(v: JsVal): JsVal {
    match v
    case Arr(items) => if items == [] then Undef else items[0]
    case Obj(fields) => Field(fields, "0")
    case Str(s) => if s == "" then Undef else Str([s[0]])
    case _ => Undef
  }

  /** `mensalidadeResponse.data[0]?.MENSALIDADE`: reading `data` of a
      missing answer, or `[0]` of a missing `data`, throws. */
  function FirstMensalidade(answer: JsVal): (r: Result<JsVal>)
    ensures r.Ok? <==> !Nullish(answer) && !Nullish(Prop(answer, "data"))
    ensures r.Ok? && Prop(answer, "data").Arr? ==>
      var rows := Prop(answer, "data").items;
      r.value == (if rows == [] then Undef else OptProp(rows[0], "MENSALIDADE"))
  {
    if Nullish(answer) then Err(ReadError(answer, "data"))
    else
      var data := Prop(answer, "data");
      if Nullish(data) then Err(ReadError(data, "0"))
      else Ok(OptProp(First(data), "MENSALIDADE"))
  }

  /** `v > 0` against the number 0: `v` is converted with `Number()`, and
      `NaN` compares false. */
  predicate Positive(v: JsVal) {
    ToNumber(v).Num? && ToNumber(v).n > 0
  }

  /** `idDepartamento`: the company's first department id when `depID` is a
      non-empty array whose first element is positive, otherwise `null`. */
  function IdDepartamento(empresa: JsVal): (r: JsVal)
    ensures var dep := Prop(empresa, "depID");
      && (r != Null <==> IsArray(dep) && dep.items != [] && Positive(dep.items[0]))
      && (r != Null ==> r == dep.items[0] && Positive(r))
  {
    var dep := Prop(empresa, "depID");
    if IsArray(dep) && |dep.items| > 0 && Positive(dep.items[0]) then dep.items[0] else Null
  }

  /** One contact as the partner wants it: `{ tipo, dado }`. */
  function ContactOf(record: JsVal): JsVal {
    Obj(map["tipo" := Prop(record, "tipo_contato"), "dado" := Prop(record, "contato")])
  }

  /** `contatoResponsavelFinanceiro`: every contact record mapped in order,
      and no contact at all when the lookup gave no array. */
  function ContactList(data: JsVal): (r: seq<JsVal>)
    ensures IsArray(data) ==> |r| == |data.items| && forall i :: 0 <= i < |r| ==> r[i] == ContactOf(data.items[i])
    ensures !IsArray(data) ==> r == []
  {
    if IsArray(data) then seq(|data.items|, i requires 0 <= i < |data.items| => ContactOf(data.items[i])) else []
  }

  /** The contact rows the model returns become the contact list one for
      one, read from each row's `tipo_contato` and `contato` columns; no row
      or a failed query gives none. */
  lemma ContactsOfRows(a: BeneficiarioModel.DbAnswer)
    ensures var r := ContactList(Prop(BeneficiarioModel.RowsResponse(a), "data"));
      && (a.Rows? ==> |r| == |a.rows|)
      && (a.Rows? ==> forall i :: 0 <= i < |r| ==>
            r[i] == Obj(map["tipo" := Field(a.rows[i], "tipo_contato"), "dado" := Field(a.rows[i], "contato")]))
      && (a.DbFailed? ==> r == [])
  {
  }

  // ------------------------------------------------------------ the request

  /** One element of `dependente`. */
  datatype Dependente = Dependente(
    tipo: JsVal, nome: JsVal, dataNascimento: JsVal, cpf: JsVal, sexo: JsVal,
    plano: int, planoValor: string, nomeMae: JsVal, primeiroPagamento: JsVal)

  const Plano := 127
  const PlanoValor := "659"

  /** A person of the contract as a `dependente` entry, with the plan every
      entry gets and the first payment month of the responsible party. */
  function DependenteOf(person: JsVal, mensalidade: JsVal): (d: Dependente)
    ensures d.plano == Plano && d.planoValor == PlanoValor
    ensures d.cpf == Prop(person, "CPF") && d.nome == Prop(person, "NOME") && d.tipo == Prop(person, "TIPO_USUARIO")
    ensures d.primeiroPagamento == mensalidade
  {
    Dependente(Prop(person, "TIPO_USUARIO"), Prop(person, "NOME"), Prop(person, "NASCIMENTO"),
               Prop(person, "CPF"), Prop(person, "SEXO"), Plano, PlanoValor,
               Prop(person, "NOME_MAE"), mensalidade)
  }

  datatype Endereco = Endereco(
    cep: JsVal, tipoLogradouro: JsVal, logradouro: JsVal, numero: JsVal,
    bairro: JsVal, municipio: JsVal, uf: JsVal, descricaoUf: string)

  /** The fixed `parceiro` block. */
  datatype Parceiro = Parceiro(codigo: int, tipoCobranca: int, adesionista: int)

  const SentParceiro := Parceiro(71709, 1, 0)

  /** `responsavelFinanceiro` of the body. Payment type 1, sale origin 13
      and the empty `matricula`, `codSistemaExterno` and `complemento` are
      constants of the body and are not repeated here. The contact list is
      sent wrapped in a one-element array. */
  datatype Responsavel = Responsavel(
    codigoContrato: JsVal, nome: JsVal, dataNascimento: JsVal, cpf: JsVal,
    identidadeNumero: JsVal, identidadeOrgaoExpeditor: JsVal, sexo: JsVal,
    departamento: JsVal, dataAssinaturaContrato: JsVal, endereco: Endereco,
    contatos: seq<seq<JsVal>>)

  /** The request: the URL and body token from the environment, the bearer
      header and the body's `dados`. */
  datatype Request = Request(
    url: JsVal, authorization: string, bodyToken: JsVal,
    parceiro: Parceiro, responsavel: Responsavel, dependentes: seq<Dependente>)

  /** `process.env.ODONTO_BENEFICIARIO_TOKEN` (the URL) and
      `process.env.BENEFICIARIO_TOKEN`. */
  datatype Env = Env(url: JsVal, beneficiarioToken: JsVal)

  /** `dependente`: the responsible party first, then the beneficiary when
      it is taken for a dependent. */
  function Dependentes(beneficiario: JsVal, responsavel: JsVal, mensalidade: JsVal, dependent: bool): (ds: seq<Dependente>)
    ensures |ds| == if dependent then 2 else 1
    ensures ds[0] == DependenteOf(responsavel, mensalidade)
    ensures dependent ==> ds[1] == DependenteOf(beneficiario, mensalidade)
    ensures forall i :: 0 <= i < |ds| ==> ds[i].plano == Plano && ds[i].planoValor == PlanoValor
  {
    [DependenteOf(responsavel, mensalidade)] + if dependent then [DependenteOf(beneficiario, mensalidade)] else []
  }

  function AddressOf(responsavel: JsVal, cep: JsVal): (e: Endereco)
    ensures e.cep == Prop(responsavel, "CEP") && e.numero == Prop(responsavel, "NUMERO_ENDERECO")
    ensures e.descricaoUf == ToStr(Prop(cep, "IdUf")) + " " + ToStr(Prop(cep, "Uf"))
  {
    Endereco(Prop(responsavel, "CEP"), Prop(cep, "IdTipoLogradouro"), Prop(cep, "Logradouro"),
             Prop(responsavel, "NUMERO_ENDERECO"), Prop(cep, "IdBairro"), Prop(cep, "IdMunicipio"),
             Prop(cep, "IdUf"), ToStr(Prop(cep, "IdUf")) + " " + ToStr(Prop(cep, "Uf")))
  }

  /** `options` as `incluirBeneficiario` builds it. */
  function BuildRequest(env: Env, token: JsVal, beneficiario: JsVal, responsavel: JsVal, cep: JsVal,
                        empresa: JsVal, contatos: JsVal, dependent: bool): (q: Request)
    ensures q.authorization == "Bearer " + ToStr(token)
    ensures q.parceiro == SentParceiro
    ensures q.responsavel.cpf == Prop(responsavel, "CPF")
    ensures q.responsavel.departamento == IdDepartamento(empresa)
    ensures q.responsavel.contatos == [ContactList(contatos)]
    ensures q.dependentes == Dependentes(beneficiario, responsavel, Prop(responsavel, "MENSALIDADE"), dependent)
  {
    var r := Responsavel(
      Prop(responsavel, "NATUREZA_CONTRATO"), Prop(responsavel, "NOME"), Prop(responsavel, "NASCIMENTO"),
      Prop(responsavel, "CPF"), Prop(responsavel, "RG"), Prop(responsavel, "ORGAO"), Prop(responsavel, "SEXO"),
      IdDepartamento(empresa), Prop(responsavel, "INCLUSAO"), AddressOf(responsavel, cep),
      [ContactList(contatos)]);
    Request(env.url, "Bearer " + ToStr(token), env.beneficiarioToken, SentParceiro, r,
            Dependentes(beneficiario, responsavel, Prop(responsavel, "MENSALIDADE"), dependent))
  }

  // ------------------------------------------------------------ one inclusion

  /** What the collaborators of `incluirBeneficiario` answer:
      `TokenService.getToken()` (the token, or the message it throws),
      `getBeneficiario(id)`, and, as functions of what they are called with,
      the titular lookup (by `TITULAR`), the monthly-fee lookup (by
      `TITULAR`), the CEP lookup (by `CEP`; it returns `data` or throws), the
      company lookup (by `CNPJ_EMPRESA`), the contact lookup (by `TITULAR`)
      and the partner's answer to the request. */
  datatype Sources = Sources(
    token: Result<JsVal>,
    beneficiario: JsVal,
    titular: JsVal -> JsVal,
    mensalidade: JsVal -> JsVal,
    cep: JsVal -> Result<JsVal>,
    empresa: JsVal -> JsVal,
    contato: JsVal -> JsVal,
    api: Request -> Outcome)

  /** How `incluirBeneficiario` settles: the partner's reply body with the
      request that got it, or the message of the error it throws. */
  datatype Inclusion = Included(request: Request, resposta: JsVal) | Threw(message: string)

  /** `!beneficiarioResponse || !beneficiarioResponse.data` fails. */
  predicate Found(src: Sources) {
    Truthy(src.beneficiario) && Truthy(Prop(src.beneficiario, "data"))
  }

  /** The beneficiary record. */
  function Beneficiary(src: Sources): JsVal {
    Prop(src.beneficiario, "data")
  }

  /** The responsible party: the beneficiary itself unless `dependent`;
      for a dependent the titular's record when the lookup finds one, and
      the beneficiary again when it does not. */
  function Responsible(src: Sources, dependent: bool): (r: JsVal)
    ensures !dependent ==> r == Beneficiary(src)
    ensures dependent ==>
      var t := src.titular(Prop(Beneficiary(src), "TITULAR"));
      r == if Truthy(t) && Truthy(Prop(t, "data")) then Prop(t, "data") else Beneficiary(src)
  {
    var ben := Beneficiary(src);
    if !dependent then ben
    else
      var t := src.titular(Prop(ben, "TITULAR"));
      if Truthy(t) && Truthy(Prop(t, "data")) then Prop(t, "data") else ben
  }

  /** `!cepInfo || !cepInfo.dados` fails. */
  predicate CepAnswered(cepInfo: JsVal) {
    Truthy(cepInfo) && Truthy(Prop(cepInfo, "dados"))
  }

  /** `!empresaInfo || empresaInfo.error` fails. */
  predicate CompanyAnswered(empresa: JsVal) {
    Truthy(empresa) && !Truthy(Prop(empresa, "error"))
  }

  /** The steps of `incluirBeneficiario` after the beneficiary is found,
      for the responsible party `resp`: the monthly fee, the CEP, the
      company and the contacts, in that order, the first that fails
      deciding the error; then the request, which is `BuildRequest` of what
      they answered and which includes the beneficiary exactly when the
      partner answers it. */
  function Proceed(src: Sources, env: Env, token: JsVal, isDep: bool, resp: JsVal): (r: Inclusion)
    ensures
      var fee := FirstMensalidade(src.mensalidade(Prop(resp, "TITULAR")));
      var cep := src.cep(Prop(resp, "CEP"));
      var empresa := src.empresa(Prop(resp, "CNPJ_EMPRESA"));
      var contato := src.contato(Prop(resp, "TITULAR"));
      && (fee.Err? ==> r == Threw(fee.msg))
      && (fee.Ok? && cep.Err? ==> r == Threw(cep.msg))
      && (fee.Ok? && cep.Ok? && !CepAnswered(cep.value) ==> r == Threw(BadCep))
      && (fee.Ok? && cep.Ok? && CepAnswered(cep.value) && !CompanyAnswered(empresa) ==> r == Threw(CompanyFailed))
      && (fee.Ok? && cep.Ok? && CepAnswered(cep.value) && CompanyAnswered(empresa) && Nullish(contato) ==>
            r == Threw(ReadError(contato, "data")))
      && (r.Included? ==>
            fee.Ok? && cep.Ok? && CepAnswered(cep.value) && CompanyAnswered(empresa) && !Nullish(contato))
      && (fee.Ok? && cep.Ok? && CepAnswered(cep.value) && CompanyAnswered(empresa) && !Nullish(contato) ==>
            var q := BuildRequest(env, token, Beneficiary(src), SetProp(resp, "MENSALIDADE", fee.value),
                                  Prop(cep.value, "dados"), empresa, Prop(contato, "data"), isDep);
            && (r.Included? <==> src.api(q).Resolved?)
            && (r.Included? ==> r.request == q && r.resposta == src.api(q).reply.data)
            && (src.api(q).Rejected? ==> r == Threw(src.api(q).message)))
  {
    match FirstMensalidade(src.mensalidade(Prop(resp, "TITULAR")))
    case Err(m) => Threw(m)
    case Ok(mensalidade) =>
      var withFee := SetProp(resp, "MENSALIDADE", mensalidade);
      assert Prop(withFee, "CEP") == Prop(resp, "CEP");
      assert Prop(withFee, "CNPJ_EMPRESA") == Prop(resp, "CNPJ_EMPRESA");
      assert Prop(withFee, "TITULAR") == Prop(resp, "TITULAR");
      match src.cep(Prop(withFee, "CEP"))
      case Err(m) => Threw(m)
      case Ok(cepInfo) =>
        if !CepAnswered(cepInfo) then Threw(BadCep)
        else
          var empresa := src.empresa(Prop(withFee, "CNPJ_EMPRESA"));
          if !CompanyAnswered(empresa) then Threw(CompanyFailed)
          else
            var contato := src.contato(Prop(withFee, "TITULAR"));
            if Nullish(contato) then Threw(ReadError(contato, "data"))
            else
              var request := BuildRequest(env, token, Beneficiary(src), withFee, Prop(cepInfo, "dados"), empresa,
                                          Prop(contato, "data"), isDep);
              match src.api(request)
              case Rejected(_, m) => Threw(m)
              case Resolved(reply) => Included(request, reply.data)
  }

  /** `incluirBeneficiario`, with `dependent` the test that decides whether
      the beneficiary is a dependent (line 61 and again line 117). The
      checks run in the source's order: token, beneficiary, monthly fee,
      CEP, company, contacts, and then the request; the first that fails
      decides the error, and when none fails the beneficiary is included
      exactly when the partner answers the assembled request. */
  function IncluirWith(src: Sources, env: Env, dependent: JsVal -> bool): (r: Inclusion)
    ensures src.token.Err? ==> r == Threw(src.token.msg)
    ensures src.token.Ok? && !Found(src) ==> r == Threw(NotFound)
    ensures src.token.Ok? && Found(src) ==>
      var isDep := dependent(Prop(Beneficiary(src), "TIPO_USUARIO"));
      var resp := Responsible(src, isDep);
      var fee := FirstMensalidade(src.mensalidade(Prop(resp, "TITULAR")));
      var cep := src.cep(Prop(resp, "CEP"));
      var empresa := src.empresa(Prop(resp, "CNPJ_EMPRESA"));
      var contato := src.contato(Prop(resp, "TITULAR"));
      && (fee.Err? ==> r == Threw(fee.msg))
      && (fee.Ok? && cep.Err? ==> r == Threw(cep.msg))
      && (fee.Ok? && cep.Ok? && !CepAnswered(cep.value) ==> r == Threw(BadCep))
      && (fee.Ok? && cep.Ok? && CepAnswered(cep.value) && !CompanyAnswered(empresa) ==> r == Threw(CompanyFailed))
      && (fee.Ok? && cep.Ok? && CepAnswered(cep.value) && CompanyAnswered(empresa) && Nullish(contato) ==>
            r == Threw(ReadError(contato, "data")))
      && (r.Included? ==>
            fee.Ok? && cep.Ok? && CepAnswered(cep.value) && CompanyAnswered(empresa) && !Nullish(contato))
      && (fee.Ok? && cep.Ok? && CepAnswered(cep.value) && CompanyAnswered(empresa) && !Nullish(contato) ==>
            var q := BuildRequest(env, src.token.value, Beneficiary(src), SetProp(resp, "MENSALIDADE", fee.value),
                                  Prop(cep.value, "dados"), empresa, Prop(contato, "data"), isDep);
            && (r.Included? <==> src.api(q).Resolved?)
            && (r.Included? ==> r.request == q && r.resposta == src.api(q).reply.data)
            && (src.api(q).Rejected? ==> r == Threw(src.api(q).message)))
    ensures r.Included? ==>
      var isDep := dependent(Prop(Beneficiary(src), "TIPO_USUARIO"));
      var resp := Responsible(src, isDep);
      && src.token.Ok? && Found(src)
      && r.request.authorization == "Bearer " + ToStr(src.token.value)
      && r.request.responsavel.cpf == Prop(resp, "CPF")
      && |r.request.dependentes| == (if isDep then 2 else 1)
      && r.request.dependentes[0].cpf == Prop(resp, "CPF")
      && (isDep ==> r.request.dependentes[1].cpf == Prop(Beneficiary(src), "CPF"))
      && src.api(r.request).Resolved? && src.api(r.request).reply.data == r.resposta
  {
    match src.token
    case Err(m) => Threw(m)
    case Ok(token) =>
      if !Found(src) then Threw(NotFound)
      else
        var isDep := dependent(Prop(Beneficiary(src), "TIPO_USUARIO"));
        Proceed(src, env, token, isDep, Responsible(src, isDep))
  }

  /** The test as written: `TIPO_USUARIO !== 1`, a strict comparison with
      the number 1. */
  predicate StrictNotOne(tipo: JsVal) {
    tipo != Num(1)
  }

  /** The evidently intended test: `Number(TIPO_USUARIO) !== 1`. */
  predicate NotTitular(tipo: JsVal) {
    ToNumber(tipo) != Num(1)
  }

  /** `incluirBeneficiario` as written. */
  function IncluirAsWritten(src: Sources, env: Env): Inclusion {
    IncluirWith(src, env, StrictNotOne)
  }

  /** `incluirBeneficiario` with the corrected test. */
  function Incluir(src: Sources, env: Env): Inclusion {
    IncluirWith(src, env, NotTitular)
  }

  /** The query returns `tipo_usuario` as a string, so the strict test
      always holds, titulars included. */
  lemma AsWrittenTestAlwaysHolds(ctipousua: Option<string>, cgrauusua: Option<string>)
    ensures StrictNotOne(Str(BeneficiarioModel.TipoUsuario(ctipousua, cgrauusua)))
  {
  }

  /** The number test separates titulars from dependents exactly on the
      codes the query produces. */
  lemma NumberTestIsTitularTest(ctipousua: Option<string>, cgrauusua: Option<string>)
    ensures NotTitular(Str(BeneficiarioModel.TipoUsuario(ctipousua, cgrauusua))) <==> ctipousua != Some("T")
  {
    var code := BeneficiarioModel.TipoUsuario(ctipousua, cgrauusua);
    CodeNumber(code);
  }

  lemma CodeNumber(code: string)
    requires code in BeneficiarioModel.UserTypes
    ensures ToNumber(Str(code)) == Num(1) <==> code == "1"
  {
    if code == "1" { CodeReads(1); }
    else if code == "3" { CodeReads(3); }
    else if code == "4" { CodeReads(4); }
    else if code == "6" { CodeReads(6); }
    else if code == "8" { CodeReads(8); }
    else { CodeReads(10); }
  }

  lemma CodeReads(n: nat)
    requires n in {1, 3, 4, 6, 8, 10}
    ensures ToNumber(Str(NatToDecimal(n))) == Num(n)
    ensures NatToDecimal(n) == if n == 10 then "10" else [DigitChar(n)]
  {
    NumberOfDecimal(n);
    assert NatToDecimal(n) == IntToDecimal(n);
  }

  /** Finding, as written: a titular beneficiary (`TIPO_USUARIO` '1') is
      still treated as a dependent. Whatever the titular lookup answers, it
      is listed as a second `dependente`; when the lookup finds the titular's
      own record, the same person is sent twice. */
  lemma AsWrittenTitularListedTwice(src: Sources, env: Env)
    requires Prop(Beneficiary(src), "TIPO_USUARIO") == Str("1")
    requires IncluirAsWritten(src, env).Included?
    ensures var ds := IncluirAsWritten(src, env).request.dependentes;
      && |ds| == 2 && ds[1].cpf == Prop(Beneficiary(src), "CPF")
      && (src.titular(Prop(Beneficiary(src), "TITULAR")) == Obj(map["data" := Beneficiary(src)]) ==>
            ds[0].cpf == ds[1].cpf)
  {
  }

  /** Corrected: a titular is its own responsible party, the titular lookup
      is not consulted, and it is listed once. */
  lemma TitularListedOnce(src: Sources, env: Env)
    requires ToNumber(Prop(Beneficiary(src), "TIPO_USUARIO")) == Num(1)
    requires Incluir(src, env).Included?
    ensures Responsible(src, false) == Beneficiary(src)
    ensures var ds := Incluir(src, env).request.dependentes;
      |ds| == 1 && ds[0].cpf == Prop(Beneficiary(src), "CPF")
  {
  }

  /** Corrected: a dependent follows its titular, who pays, and both are
      listed, the titular first. */
  lemma DependentFollowsTitular(src: Sources, env: Env)
    requires NotTitular(Prop(Beneficiary(src), "TIPO_USUARIO"))
    requires Incluir(src, env).Included?
    ensures var ds := Incluir(src, env).request.dependentes;
      && |ds| == 2 && ds[0].cpf == Prop(Responsible(src, true), "CPF")
      && ds[1].cpf == Prop(Beneficiary(src), "CPF")
  {
  }
}
