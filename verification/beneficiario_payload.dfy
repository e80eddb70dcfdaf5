/** The AssociadoPJ and NovoDependente request bodies built from Oracle rows
    (`buildDadosFromGrupo` in both beneficiary controllers and
    `buildDadosNovoDependente`), plus the row extraction shared by every
    controller that runs raw SQL. */
module BeneficiarioPayload {
  import opened Wrappers
  import opened Text
  import opened JsValues
  import Seqs

  // ------------------------------------------------------------ constants

  /** Partner code of the homologation environment, replaced by production's. */
  const HomologPartner := 71709
  const ProductionPartner := 72692
  const Plan := 124
  const PlanValue := "6.59"
  const Grace := 1
  const RegisteringEmployee := 72694
  const PaymentType := 513
  const DefaultContract := 27543

  /** The two copies of `buildDadosFromGrupo`: the preview generator
      (GeraApenasJsonBeneficiarios.js) and the sending one
      (GeraJsonBeneficiarios_bkp.js). They differ in the error message and in
      the second column a dependent's inclusion date falls back to. */
  datatype Variant = Preview | Dispatch

  function MissingTitularMessage(v: Variant): string {
    match v
    case Preview => "Grupo sem titular (tipo_usuario = 1)."
    case Dispatch => "Grupo sem titular."
  }

  function DependentDateColumn(v: Variant): string {
    match v
    case Preview => "dinclusua"
    case Dispatch => "sysdate"
  }

  // ------------------------------------------------------------ payloads

  datatype Contato = Contato(tipo: JsVal, dado: string)

  datatype Endereco = Endereco(
    cep: JsVal,
    tipoLogradouro: JsVal,
    logradouro: JsVal,
    numero: string,
    complemento: string,
    bairro: JsVal,
    municipio: JsVal,
    uf: JsVal,
    descricaoUf: JsVal)

  datatype Parceiro = Parceiro(
    codigo: JsVal,
    tipoCobranca: JsVal,
    adesionista: JsVal,
    maxMensalidadeId: string)

  datatype Responsavel = Responsavel(
    codigoContrato: JsVal,
    nome: string,
    dataNascimento: JsVal,
    cpf: string,
    sexo: JsVal,
    identidadeNumero: JsVal,
    identidadeOrgaoExpeditor: JsVal,
    matricula: string,
    dataApresentacao: JsVal,
    diaVencimento: string,
    tipoPagamento: int,
    origemVenda: JsVal,
    departamento: string,
    dataAssinaturaContrato: JsVal,
    endereco: Endereco,
    flAlteraSituacao: JsVal,
    contatos: seq<Contato>)

  /** One life (titular or dependent) in the `dependente` array. */
  datatype Vida = Vida(
    tipo: JsVal,
    nome: string,
    dataNascimento: JsVal,
    cpf: string,
    sexo: JsVal,
    plano: int,
    planoValor: string,
    nomeMae: string,
    carenciaAtendimento: int,
    mmyyyy1Pagamento: JsVal,
    funcionarioCadastro: int,
    dataCadastroLoteContrato: JsVal)

  /** The AssociadoPJ `dados` object. */
  datatype Dados = Dados(
    parcelaRetidaComissao: JsVal,
    incluirMensalidades: JsVal,
    parceiro: Parceiro,
    responsavel: Responsavel,
    dependente: seq<Vida>)

  /** `get(row, name)` for a single column name: the column as written, then
      upper-cased, then lower-cased. */
  function Col(row: Row, name: string): (r: JsVal)
    ensures r != Undef
  {
    if Field(row, name) != Undef then Field(row, name)
    else if Field(row, ToUpper(name)) != Undef then Field(row, ToUpper(name))
    else if Field(row, ToLower(name)) != Undef then Field(row, ToLower(name))
    else Null
  }

  /** `Col` is `get` with one name. */
  lemma ColIsGet(row: Row, name: string)
    ensures Col(row, name) == Get(row, [name])
  {
    assert [name][1..] == [];
  }

  // ------------------------------------------------------------ extractRows

  /** `extractRows(result)`: the row array inside whatever shape the driver
      returned (a plain array of rows, `{ rows }`, or `[rows, metadata]`). */
  function ExtractRows(result: JsVal): (rows: seq<JsVal>)
    ensures !Truthy(result) ==> rows == []
    ensures rows != [] ==> Truthy(result)
  {
    if !Truthy(result) then []
    else if result.Arr? && (result.items == [] || !result.items[0].Arr?) then result.items
    else if Prop(result, "rows").Arr? then Prop(result, "rows").items
    else if result.Arr? && result.items[0].Arr? then result.items[0].items
    else []
  }

  /** All three driver shapes give back the same rows. */
  lemma ExtractRowsShapes(rows: seq<JsVal>, meta: JsVal)
    requires rows == [] || !rows[0].Arr?
    ensures ExtractRows(Arr(rows)) == rows
    ensures ExtractRows(Obj(map["rows" := Arr(rows)])) == rows
    ensures ExtractRows(Arr([Arr(rows), meta])) == rows
  {
  }

  // ------------------------------------------------------------ partner code

  /** `Number(codigo || 72692)`, with the homologation code 71709 forced to
      the production code. */
  function ParceiroCodigo(titular: Row): (r: JsVal)
    ensures r != Num(HomologPartner)
    ensures r.Num? || r.NaN?
    ensures !Truthy(Col(titular, "codigo")) ==> r == Num(ProductionPartner)
    ensures Truthy(Col(titular, "codigo")) && ToNumber(Col(titular, "codigo")) != Num(HomologPartner)
      ==> r == ToNumber(Col(titular, "codigo"))
  {
    var c := ToNumber(Or(Col(titular, "codigo"), Num(ProductionPartner)));
    if c == Num(HomologPartner) then Num(ProductionPartner) else c
  }

  /** The partner code is always either the production code or the number
      the row's `codigo` column holds; the homologation code never leaks. */
  lemma ParceiroCodigoCases(titular: Row)
    ensures ParceiroCodigo(titular) == Num(ProductionPartner)
      || (ParceiroCodigo(titular) == ToNumber(Col(titular, "codigo"))
          && ToNumber(Col(titular, "codigo")) != Num(HomologPartner))
  {
  }

  // ------------------------------------------------------------ address

  /** `(numero || '').toString().trim()`, and `'0'` when that is blank. */
  function NumeroEndereco(raw: JsVal): (r: string)
    ensures r != ""
    ensures Trim(OrEmpty(raw)) != "" ==> r == Trim(OrEmpty(raw))
    ensures Trim(OrEmpty(raw)) == "" ==> r == "0"
  {
    var t := Trim(OrEmpty(raw));
    if t == "" then "0" else t
  }

  /** The house number sent is already trimmed: trimming it again, or
      feeding it back as the raw column, gives the same number. */
  lemma NumeroEnderecoIsFixed(raw: JsVal)
    ensures Trim(NumeroEndereco(raw)) == NumeroEndereco(raw)
  {
    TrimSpec(OrEmpty(raw));
    TrimmedIsFixed(NumeroEndereco(raw));
  }

  /** Feeding the sent house number back in as the raw column gives it back. */
  lemma NumeroEnderecoIdempotent(raw: JsVal)
    ensures NumeroEndereco(Str(NumeroEndereco(raw))) == NumeroEndereco(raw)
  {
    NumeroEnderecoIsFixed(raw);
  }

  /** The `endereco` object: CEP digits (or `null`), the CEP service's ids
      when it answered, and the trimmed house number. */
  function BuildEndereco(titular: Row, cepInfo: Option<Row>): (e: Endereco)
    ensures e.numero != "" && e.complemento == ""
    ensures e.cep == Null || (e.cep.Str? && e.cep.s != "" && AllDigits(e.cep.s))
    ensures OnlyDigits(Col(titular, "cep")) != "" ==> e.cep == Str(OnlyDigits(Col(titular, "cep")))
    ensures OnlyDigits(Col(titular, "cep")) == "" ==> e.cep == Null
    ensures e.numero == NumeroEndereco(Col(titular, "numero"))
    ensures cepInfo.None? ==>
      (&& e.tipoLogradouro == Null && e.bairro == Null && e.municipio == Null && e.uf == Null
       && e.logradouro == Str("") && e.descricaoUf == Str(""))
    ensures cepInfo.Some? ==>
      (&& e.logradouro == Field(cepInfo.value, "Logradouro")
       && e.descricaoUf == Field(cepInfo.value, "Uf")
       && e.uf == ToNumber(Field(cepInfo.value, "IdUf"))
       && e.tipoLogradouro == ToNumber(Field(cepInfo.value, "IdTipoLogradouro"))
       && e.bairro == ToNumber(Field(cepInfo.value, "IdBairro"))
       && e.municipio == ToNumber(Field(cepInfo.value, "IdMunicipio")))
  {
    var cep := OnlyDigits(Col(titular, "cep"));
    Endereco(
      cep := if cep != "" then Str(cep) else Null,
      tipoLogradouro := if cepInfo.Some? then ToNumber(Field(cepInfo.value, "IdTipoLogradouro")) else Null,
      logradouro := if cepInfo.Some? then Field(cepInfo.value, "Logradouro") else Str(""),
      numero := NumeroEndereco(Col(titular, "numero")),
      complemento := "",
      bairro := if cepInfo.Some? then ToNumber(Field(cepInfo.value, "IdBairro")) else Null,
      municipio := if cepInfo.Some? then ToNumber(Field(cepInfo.value, "IdMunicipio")) else Null,
      uf := if cepInfo.Some? then ToNumber(Field(cepInfo.value, "IdUf")) else Null,
      descricaoUf := if cepInfo.Some? then Field(cepInfo.value, "Uf") else Str(""))
  }

  // ------------------------------------------------------------ contacts

  /** `contatoResponsavelFinanceiro`: one entry when the titular row carries
      both a contact and its type, none otherwise. */
  function BuildContatos(titular: Row): (cs: seq<Contato>)
    ensures |cs| <= 1
    ensures |cs| == 1 <==> Truthy(Col(titular, "contato")) && Truthy(Col(titular, "tipo_contato"))
    ensures |cs| == 1 ==>
      cs[0].dado == ToStr(Col(titular, "contato")) && cs[0].tipo == ToNumber(Col(titular, "tipo_contato"))
  {
    var contato := Col(titular, "contato");
    var tipo := Col(titular, "tipo_contato");
    if Truthy(contato) && Truthy(tipo) then [Contato(ToNumber(tipo), ToStr(contato))] else []
  }

  // ------------------------------------------------------------ lives

  /** `inclusao || dinclusua || dataAssinaturaContrato` of the titular. */
  function InclusaoTitular(titular: Row): (r: JsVal)
    ensures Truthy(r) <==>
      (Truthy(Col(titular, "inclusao")) || Truthy(Col(titular, "dinclusua"))
       || Truthy(Col(titular, "dataAssinaturaContrato")))
    ensures r in {Col(titular, "inclusao"), Col(titular, "dinclusua"), Col(titular, "dataAssinaturaContrato")}
    ensures Truthy(Col(titular, "inclusao")) ==> r == Col(titular, "inclusao")
    ensures !Truthy(Col(titular, "inclusao")) && Truthy(Col(titular, "dinclusua")) ==> r == Col(titular, "dinclusua")
    ensures !Truthy(Col(titular, "inclusao")) && !Truthy(Col(titular, "dinclusua")) ==>
      r == Col(titular, "dataAssinaturaContrato")
  {
    Or(Or(Col(titular, "inclusao"), Col(titular, "dinclusua")), Col(titular, "dataAssinaturaContrato"))
  }

  /** One entry of `dependente`: the row's own data with the plan constants. */
  function BuildVida(row: Row, variant: Variant, inclusaoTitular: JsVal): (v: Vida)
    ensures v.plano == Plan && v.planoValor == PlanValue
    ensures v.carenciaAtendimento == Grace && v.funcionarioCadastro == RegisteringEmployee
    ensures |v.nome| <= NameLimit && |v.nomeMae| <= NameLimit
    ensures v.cpf == OnlyDigits(Col(row, "cpf"))
  {
    Vida(
      tipo := ToNumber(Or(Col(row, "tipo_usuario"), Num(1))),
      nome := Trunc(Col(row, "nome"), NameLimit),
      dataNascimento := Col(row, "nascimento"),
      cpf := OnlyDigits(Col(row, "cpf")),
      sexo := ToNumber(Or(Col(row, "sexo"), Num(1))),
      plano := Plan,
      planoValor := PlanValue,
      nomeMae := Trunc(Col(row, "nome_mae"), NameLimit),
      carenciaAtendimento := Grace,
      mmyyyy1Pagamento := Col(row, "MMYYYY1Pagamento"),
      funcionarioCadastro := RegisteringEmployee,
      dataCadastroLoteContrato :=
        Or(Or(Col(row, "inclusao"), Col(row, DependentDateColumn(variant))), inclusaoTitular))
  }

  /** A life's names are prefixes of the row's names, its CPF is digits only,
      and its inclusion date is the first truthy one of the row's `inclusao`,
      the variant's fallback column and the titular's inclusion date (falsy
      only when all three are). */
  lemma BuildVidaFields(row: Row, variant: Variant, inclusaoTitular: JsVal)
    ensures var v := BuildVida(row, variant, inclusaoTitular);
      && v.nome <= OrEmpty(Col(row, "nome")) && v.nomeMae <= OrEmpty(Col(row, "nome_mae"))
      && AllDigits(v.cpf)
      && (Truthy(v.dataCadastroLoteContrato) <==>
           (Truthy(Col(row, "inclusao")) || Truthy(Col(row, DependentDateColumn(variant)))
            || Truthy(inclusaoTitular)))
      && (Truthy(Col(row, "inclusao")) ==> v.dataCadastroLoteContrato == Col(row, "inclusao"))
      && ((!Truthy(Col(row, "inclusao")) && Truthy(Col(row, DependentDateColumn(variant)))) ==>
           v.dataCadastroLoteContrato == Col(row, DependentDateColumn(variant)))
      && ((!Truthy(Col(row, "inclusao")) && !Truthy(Col(row, DependentDateColumn(variant)))) ==>
           v.dataCadastroLoteContrato == inclusaoTitular)
  {
    TruncIsPrefix(Col(row, "nome"), NameLimit);
    TruncIsPrefix(Col(row, "nome_mae"), NameLimit);
  }

  /** `grupoRows.map(...)`. */
  function BuildVidas(rows: seq<Row>, variant: Variant, inclusaoTitular: JsVal): (vs: seq<Vida>)
    ensures |vs| == |rows|
    ensures forall i :: 0 <= i < |rows| ==> vs[i] == BuildVida(rows[i], variant, inclusaoTitular)
  {
    Seqs.Map(row => BuildVida(row, variant, inclusaoTitular), rows)
  }

  /** The lives of two groups laid end to end are the lives of each, laid end
      to end: the list never reorders, drops or merges rows. */
  lemma BuildVidasAppend(a: seq<Row>, b: seq<Row>, variant: Variant, inc: JsVal)
    ensures BuildVidas(a + b, variant, inc) == BuildVidas(a, variant, inc) + BuildVidas(b, variant, inc)
  {
    Seqs.MapAppend(row => BuildVida(row, variant, inc), a, b);
  }

  // ------------------------------------------------------------ the group

  /** The `parceiro` object, read from the titular row with its defaults. */
  function BuildParceiro(t: Row): (p: Parceiro)
    ensures p.codigo == ParceiroCodigo(t)
    ensures !Truthy(Col(t, "tipoCobranca")) ==> p.tipoCobranca == Num(1)
    ensures !Truthy(Col(t, "adesionista")) ==> p.adesionista == Num(0)
    ensures Nullish(Col(t, "maxMensalidadeId")) ==> p.maxMensalidadeId == "0"
  {
    Parceiro(
      codigo := ParceiroCodigo(t),
      tipoCobranca := ToNumber(Or(Col(t, "tipoCobranca"), Num(1))),
      adesionista := ToNumber(Or(Col(t, "adesionista"), Num(0))),
      maxMensalidadeId := ToStr(Coalesce(Col(t, "maxMensalidadeId"), Str("0"))))
  }

  /** The `responsavelFinanceiro` object: the titular's data, address and
      contacts, with the fixed billing fields. */
  function BuildResponsavel(t: Row, cepInfo: Option<Row>): (p: Responsavel)
    ensures AllDigits(p.cpf) && p.cpf == OnlyDigits(Col(t, "cpf"))
    ensures p.matricula == "MAT-" + p.cpf
    ensures |p.nome| <= NameLimit
    ensures p.endereco == BuildEndereco(t, cepInfo) && p.contatos == BuildContatos(t)
    ensures p.diaVencimento == "01" && p.tipoPagamento == PaymentType
    ensures p.dataApresentacao == InclusaoTitular(t)
    ensures (!Truthy(Col(t, "natureza_contrato")) && !Truthy(Col(t, "codigoContrato"))) ==>
      p.codigoContrato == Num(DefaultContract)
  {
    var cpf := OnlyDigits(Col(t, "cpf"));
    var inclusaoTitular := InclusaoTitular(t);
    Responsavel(
      codigoContrato := ToNumber(Or(Or(Col(t, "natureza_contrato"), Col(t, "codigoContrato")), Num(DefaultContract))),
      nome := Trunc(Col(t, "nome"), NameLimit),
      dataNascimento := Col(t, "nascimento"),
      cpf := cpf,
      sexo := ToNumber(Or(Col(t, "sexo"), Num(1))),
      identidadeNumero := Col(t, "rg"),
      identidadeOrgaoExpeditor := Col(t, "orgao"),
      matricula := "MAT-" + cpf,
      dataApresentacao := inclusaoTitular,
      diaVencimento := "01",
      tipoPagamento := PaymentType,
      origemVenda := ToNumber(Or(Col(t, "origemVenda"), Num(13))),
      departamento := ToStr(Coalesce(Col(t, "departamento"), Str(""))),
      dataAssinaturaContrato := Or(inclusaoTitular, Col(t, "dataAssinaturaContrato")),
      endereco := BuildEndereco(t, cepInfo),
      flAlteraSituacao := ToNumber(Or(Col(t, "fl_AlteraSituacao"), Num(16))),
      contatos := BuildContatos(t))
  }

  /** `buildDadosFromGrupo(grupoRows, cepInfoTitular, titularRow)`. */
  function BuildDados(rows: seq<Row>, cepInfo: Option<Row>, titular: Option<Row>, variant: Variant)
    : (r: Result<Dados>)
    ensures titular.None? <==> r.Err?
    ensures r.Err? ==> r.msg == MissingTitularMessage(variant)
    ensures r.Ok? ==>
      (&& r.value.parceiro == BuildParceiro(titular.value)
       && r.value.responsavel == BuildResponsavel(titular.value, cepInfo)
       && r.value.dependente == BuildVidas(rows, variant, InclusaoTitular(titular.value)))
  {
    if titular.None? then Err(MissingTitularMessage(variant))
    else
      var t := titular.value;
      Ok(Dados(
        parcelaRetidaComissao := Coalesce(Col(t, "parcelaRetidaComissao"), Str("0")),
        incluirMensalidades := Coalesce(Col(t, "incluirMensalidades"), Str("0")),
        parceiro := BuildParceiro(t),
        responsavel := BuildResponsavel(t, cepInfo),
        dependente := BuildVidas(rows, variant, InclusaoTitular(t))))
  }

  /** When the titular row was fetched and put at the front of the group, the
      first life sent is the titular's own, with the responsible party's CPF. */
  lemma TitularFirstWhenPrepended(titular: Row, rows: seq<Row>, cepInfo: Option<Row>, variant: Variant)
    ensures var vs := BuildVidas([titular] + rows, variant, InclusaoTitular(titular));
      && |vs| == |rows| + 1
      && vs[0] == BuildVida(titular, variant, InclusaoTitular(titular))
      && vs[0].cpf == BuildResponsavel(titular, cepInfo).cpf
      && vs[1..] == BuildVidas(rows, variant, InclusaoTitular(titular))
  {
    BuildVidasAppend([titular], rows, variant, InclusaoTitular(titular));
  }

  // ------------------------------------------------------------ NovoDependente

  datatype NovoParceiro = NovoParceiro(codigo: JsVal, adesionista: JsVal)
  datatype NovoResponsavel = NovoResponsavel(codigo: JsVal, dataAssinaturaContrato: JsVal)

  /** A `dependente` entry of NovoDependente: a `Vida` plus the blank fields
      that endpoint also expects. */
  datatype NovoVida = NovoVida(
    vida: Vida,
    numeroProposta: string,
    rcaId: int,
    cdOrientacaoSexual: int,
    outraOrientacaoSexual: string,
    cdIdentGenero: int,
    outraIdentidadeGenero: string,
    idExterno: string,
    numeroCarteira: string,
    observacaoUsuario: string)

  datatype NovoDados = NovoDados(
    parceiro: NovoParceiro,
    responsavel: NovoResponsavel,
    dependente: seq<NovoVida>,
    contatoDependente: seq<Contato>)

  /** The contract-signing date of the family:
      `dataAssinaturaContrato || inclusao || sysdate` of the titular. */
  function DataAssinaturaFamilia(titular: Row): (r: JsVal)
    ensures Truthy(r) <==>
      (Truthy(Col(titular, "dataAssinaturaContrato")) || Truthy(Col(titular, "inclusao"))
       || Truthy(Col(titular, "sysdate")))
    ensures Truthy(Col(titular, "dataAssinaturaContrato")) ==> r == Col(titular, "dataAssinaturaContrato")
    ensures !Truthy(Col(titular, "dataAssinaturaContrato")) && Truthy(Col(titular, "inclusao")) ==>
      r == Col(titular, "inclusao")
    ensures !Truthy(Col(titular, "dataAssinaturaContrato")) && !Truthy(Col(titular, "inclusao")) ==>
      r == Col(titular, "sysdate")
  {
    Or(Or(Col(titular, "dataAssinaturaContrato"), Col(titular, "inclusao")), Col(titular, "sysdate"))
  }

  /** `buildDadosNovoDependente(dependenteRow, titularRow, matricula)`. */
  function BuildNovoDependente(dep: Row, titular: Row, matricula: JsVal): (r: NovoDados)
    ensures |r.dependente| == 1 && r.contatoDependente == []
    ensures r.responsavel.codigo == ToNumber(matricula)
    ensures r.parceiro.codigo == ParceiroCodigo(titular) && r.parceiro.codigo != Num(HomologPartner)
    ensures r.dependente[0].vida.cpf == OnlyDigits(Col(dep, "cpf"))
    ensures r.dependente[0].vida.plano == Plan && r.dependente[0].vida.planoValor == PlanValue
    ensures |r.dependente[0].vida.nome| <= NameLimit
    ensures Truthy(r.responsavel.dataAssinaturaContrato) <==>
      Truthy(DataAssinaturaFamilia(titular)) || Truthy(r.dependente[0].vida.dataCadastroLoteContrato)
  {
    var assinatura := DataAssinaturaFamilia(titular);
    var vida := BuildVida(dep, Dispatch, assinatura);
    NovoDados(
      parceiro := NovoParceiro(ParceiroCodigo(titular), ToNumber(Or(Col(titular, "adesionista"), Num(0)))),
      responsavel := NovoResponsavel(ToNumber(matricula), Or(assinatura, vida.dataCadastroLoteContrato)),
      dependente := [NovoVida(vida, "", 0, 0, "", 0, "", "", "", "")],
      contatoDependente := [])
  }

  /** A NovoDependente life and the AssociadoPJ life built from the same row
      agree on everything except the inclusion-date fallback, which here is the
      family's contract date instead of the titular's inclusion date. */
  lemma NovoDependenteMatchesGroupLife(dep: Row, titular: Row, matricula: JsVal)
    ensures var n := BuildNovoDependente(dep, titular, matricula).dependente[0].vida;
      var g := BuildVida(dep, Dispatch, InclusaoTitular(titular));
      n.(dataCadastroLoteContrato := g.dataCadastroLoteContrato) == g
  {
  }
}
