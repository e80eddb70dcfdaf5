/** The company (`/departamento`) payload scripts: command-line options,
    the normalisation and filtering of company rows shared by
    company-json-all.js and generate-and-send-odontogroup.js, the output
    file's timestamp, and the single-company payload of company-json-un.js. */
module CompanyPayload {
  import opened Wrappers
  import opened Text
  import opened JsValues
  import Seqs

  // ------------------------------------------------------------ arguments

  /** `args.indexOf(k)`. */
  function IndexOf(args: seq<string>, k: string): (i: int)
    ensures -1 <= i < |args|
    ensures i >= 0 ==> args[i] == k && forall j :: 0 <= j < i ==> args[j] != k
    ensures i == -1 <==> k !in args
  {
    Seqs.FindIndex((a: string) => a == k, args)
  }

  /** `args[i + 1]`: `undefined` past the end. */
  function NextArg(args: seq<string>, i: int): (v: JsVal)
    ensures v.Undef? || v.Str?
  {
    if 0 <= i && i + 1 < |args| then Str(args[i + 1]) else Undef
  }

  /** `Number(args[i + 1])` after `--key`, when that is a positive number. */
  function PositiveArg(args: seq<string>, k: string): (r: Option<int>)
    ensures r.Some? ==> r.value > 0
    ensures r.Some? <==>
      IndexOf(args, k) >= 0 && ToNumber(NextArg(args, IndexOf(args, k))).Num?
      && ToNumber(NextArg(args, IndexOf(args, k))).n > 0
    ensures r.Some? ==> Num(r.value) == ToNumber(NextArg(args, IndexOf(args, k)))
  {
    var i := IndexOf(args, k);
    var v := if i >= 0 then ToNumber(NextArg(args, i)) else Null;
    if Truthy(v) && v.Num? && v.n > 0 then Some(v.n) else None
  }

  /** company-json-all's `limit`: the positive `--limit`, else `null`. */
  function LimitOrNull(args: seq<string>): (v: JsVal)
    ensures v.Null? || (v.Num? && v.n > 0)
  {
    match PositiveArg(args, "--limit")
    case Some(n) => Num(n)
    case None => Null
  }

  /** `limit ?? 10`, the bound the query receives. */
  function QueryLimit(args: seq<string>): (n: int)
    ensures n > 0
    ensures LimitOrNull(args).Null? ==> n == 10
  {
    var v := Coalesce(LimitOrNull(args), Num(10));
    v.n
  }

  /** generate-and-send's `limit`: the positive `--limit`, else 10. */
  function SendLimit(args: seq<string>): (n: int)
    ensures n > 0
  {
    match PositiveArg(args, "--limit")
    case Some(n) => n
    case None => 10
  }

  /** Both scripts read the same limit, the one defaulting to `null` (then
      10) and the other straight to 10. */
  lemma LimitsAgree(args: seq<string>)
    ensures QueryLimit(args) == SendLimit(args)
  {
  }

  /** `--limit n` with a positive `n` written in decimal sets the limit. */
  lemma LimitFromDecimal(args: seq<string>, n: nat)
    requires n > 0 && "--limit" in args
    requires IndexOf(args, "--limit") + 1 < |args| && args[IndexOf(args, "--limit") + 1] == NatToDecimal(n)
    ensures LimitOrNull(args) == Num(n) && SendLimit(args) == n
  {
    NumberOfDecimal(n);
  }

  /** `getArg(k, d)`: the argument after `k` when there is one, it is not
      empty and it does not start with `--`; otherwise `d`. */
  function GetArg(args: seq<string>, k: string, d: string): (r: string)
    ensures r != d ==> IndexOf(args, k) >= 0 && IndexOf(args, k) + 1 < |args| && r == args[IndexOf(args, k) + 1]
    ensures (var i := IndexOf(args, k);
             i >= 0 && i + 1 < |args| && args[i + 1] != "" && !StartsWith(args[i + 1], "--")) ==>
      r == args[IndexOf(args, k) + 1]
    ensures r != d ==> r != "" && !StartsWith(r, "--")
  {
    var i := IndexOf(args, k);
    var next := NextArg(args, i);
    if i >= 0 && Truthy(next) && !StartsWith(next.s, "--") then next.s else d
  }

  /** `Number(getArg('--delay', '100')) || 100`: never 0, so an explicit 0
      is also 100; without `--delay` it is 100; otherwise it is the number
      the argument reads as, unless that is 0 or not a number. */
  function DelayMs(args: seq<string>): (v: JsVal)
    ensures v.Num? && v.n != 0
    ensures GetArg(args, "--delay", "100") == "0" ==> v == Num(100)
    ensures "--delay" !in args ==> v == Num(100)
    ensures v == Num(100) || v == ToNumber(Str(GetArg(args, "--delay", "100")))
    ensures ToNumber(Str(GetArg(args, "--delay", "100"))).Num? && ToNumber(Str(GetArg(args, "--delay", "100"))).n != 0 ==>
      v == ToNumber(Str(GetArg(args, "--delay", "100")))
  {
    ZeroReadsAsZero();
    NumberOfDecimal(100);
    assert IntToDecimal(100) == "100";
    Or(ToNumber(Str(GetArg(args, "--delay", "100"))), Num(100))
  }

  /** `--delay n` with a positive `n` written in decimal waits `n` ms,
      whatever the other arguments are. */
  lemma DelayFromDecimal(pre: seq<string>, n: nat, post: seq<string>)
    requires n > 0 && "--delay" !in pre
    ensures DelayMs(pre + ["--delay", NatToDecimal(n)] + post) == Num(n)
  {
    var a := NatToDecimal(n);
    var args := pre + ["--delay", a] + post;
    assert args[|pre|] == "--delay" && args[|pre| + 1] == a;
    assert IndexOf(args, "--delay") == |pre|;
    assert IsDigit(a[0]);
    assert GetArg(args, "--delay", "100") == a;
    NumberOfDecimal(n);
  }

  /** `Number('0')` is 0, which `||` then replaces. */
  lemma ZeroReadsAsZero()
    ensures ToNumber(Str("0")) == Num(0)
  {
    ParseNumberOfDigits("0");
  }

  /** company-json-un's `get(k)`: `args[i + 1]` after `k`, else `null`. */
  function ArgOrNull(args: seq<string>, k: string): (v: JsVal)
    ensures v.Null? <==> k !in args
  {
    var i := IndexOf(args, k);
    if i >= 0 then NextArg(args, i) else Null
  }

  // ------------------------------------------------------------ company rows

  /** A `/departamento` payload. */
  datatype CompanyBody = CompanyBody(
    cdEmpresa: JsVal,
    nome: string,
    nrCgc: string,
    cdOrgao: JsVal,
    cdGrupo: JsVal,
    tpempresa: JsVal,
    classificacao: JsVal)

  /** `(r.nome ?? r.NOME ?? '').toString().trim()`. */
  function NomeOf(r: Row): string {
    Trim(ToStr(Coalesce(Coalesce(Field(r, "nome"), Field(r, "NOME")), Str(""))))
  }

  /** `((r.nr_cgc ?? r.NR_CGC) ?? '').toString().replace(/\D/g, '')`. */
  function CnpjOf(r: Row): (c: string)
    ensures AllDigits(c)
  {
    KeepDigits(ToStr(Coalesce(Coalesce(Field(r, "nr_cgc"), Field(r, "NR_CGC")), Str(""))))
  }

  /** `x != null ? Number(x) : null`. */
  function NumberOrNull(x: JsVal): (v: JsVal)
    ensures v.Null? <==> Nullish(x)
    ensures !v.Null? ==> v.Num? || v.NaN?
    ensures !Nullish(x) ==> v == ToNumber(x)
  {
    if !Nullish(x) then ToNumber(x) else Null
  }

  /** A row yields a payload exactly when its trimmed name is not empty and
      its CNPJ has exactly 14 digits. */
  predicate Valid(r: Row) {
    NomeOf(r) != "" && |CnpjOf(r)| == 14
  }

  /** `(r.Cd_empresa ?? r.CD_EMPRESA ?? '').toString().trim()`. */
  function CdEmpOf(r: Row): string {
    Trim(ToStr(Coalesce(Coalesce(Field(r, "Cd_empresa"), Field(r, "CD_EMPRESA")), Str(""))))
  }

  /** The payload of a row: `cd_empresa` is `Number` of the trimmed company
      code, or null when that is empty; the type and class are
      `NumberOrNull` of their columns. */
  function BodyOf(r: Row): (b: CompanyBody)
    ensures b.nome == NomeOf(r) && b.nrCgc == CnpjOf(r)
    ensures b.cdOrgao == Null && b.cdGrupo == Null
    ensures b.cdEmpresa.Null? <==> CdEmpOf(r) == ""
    ensures CdEmpOf(r) != "" ==> b.cdEmpresa == ToNumber(Str(CdEmpOf(r)))
    ensures b.tpempresa == NumberOrNull(Coalesce(Field(r, "tpempresa"), Field(r, "TPEMPRESA")))
    ensures b.classificacao == NumberOrNull(Coalesce(Field(r, "classificacao"), Field(r, "CLASSIFICACAO")))
    ensures b.tpempresa.Null? || b.tpempresa.Num? || b.tpempresa.NaN?
    ensures b.classificacao.Null? || b.classificacao.Num? || b.classificacao.NaN?
  {
    var cdEmp := CdEmpOf(r);
    CompanyBody(
      if cdEmp != "" then ToNumber(Str(cdEmp)) else Null,
      NomeOf(r),
      CnpjOf(r),
      Null,
      Null,
      NumberOrNull(Coalesce(Field(r, "tpempresa"), Field(r, "TPEMPRESA"))),
      NumberOrNull(Coalesce(Field(r, "classificacao"), Field(r, "CLASSIFICACAO"))))
  }

  /** A company code written in decimal, such as the query's '27552',
      reads back as that number. */
  lemma CdEmpresaFromDecimal(r: Row, n: nat)
    requires Field(r, "Cd_empresa") == Str(NatToDecimal(n))
    ensures BodyOf(r).cdEmpresa == Num(n)
  {
    var a := NatToDecimal(n);
    assert IsDigit(a[0]) && IsDigit(a[|a| - 1]);
    TrimmedIsFixed(a);
    NumberOfDecimal(n);
  }

  /** The normalisation loop: invalid rows are skipped (`continue`). */
  function Payloads(rows: seq<Row>): (ps: seq<CompanyBody>)
    ensures |ps| <= |rows|
    ensures forall i :: 0 <= i < |ps| ==>
      ps[i].nome != "" && |ps[i].nrCgc| == 14 && AllDigits(ps[i].nrCgc) && ps[i].cdOrgao == Null && ps[i].cdGrupo == Null
  {
    if rows == [] then []
    else
      var rest := Payloads(rows[1..]);
      if Valid(rows[0]) then [BodyOf(rows[0])] + rest else rest
  }

  /** The payloads are the bodies of the valid rows, in row order. */
  lemma {:induction false} PayloadsAreValidRows(rows: seq<Row>)
    ensures Payloads(rows) == Seqs.Map(BodyOf, Seqs.Filter(Valid, rows))
  {
    if rows != [] {
      PayloadsAreValidRows(rows[1..]);
      if Valid(rows[0]) {
        Seqs.MapAppend(BodyOf, [rows[0]], Seqs.Filter(Valid, rows[1..]));
      }
    }
  }

  /** A trimmed name is its own trim: re-normalising a payload's name
      changes nothing. */
  lemma NomeIsTrimmed(r: Row)
    ensures Trim(NomeOf(r)) == NomeOf(r)
  {
    TrimIdempotent(ToStr(Coalesce(Coalesce(Field(r, "nome"), Field(r, "NOME")), Str(""))));
  }

  const NoCompany := "Nenhuma empresa ativa encontrada."
  const NoValidPayload := "Nenhum payload v\U{00E1}lido (nome vazio/CNPJ inv\U{00E1}lido)."

  /** Both scripts stop with an error when the query returns no row or no
      row is valid; otherwise the payloads go to the file. */
  function Generate(rows: seq<Row>): (r: Result<seq<CompanyBody>>)
    ensures rows == [] ==> r == Err(NoCompany)
    ensures r.Ok? ==> r.value == Payloads(rows) && r.value != []
    ensures r.Err? ==> rows == [] || Payloads(rows) == []
  {
    if rows == [] then Err(NoCompany)
    else
      var ps := Payloads(rows);
      if ps == [] then Err(NoValidPayload) else Ok(ps)
  }

  // ------------------------------------------------------------ timestamp

  /** `new Date().toISOString()` for a year in 0..9999:
      `YYYY-MM-DDTHH:mm:ss.sssZ`. */
  function IsoString(y: nat, mo: nat, d: nat, h: nat, mi: nat, s: nat, ms: nat): string {
    Pad(y, 4) + "-" + Pad(mo, 2) + "-" + Pad(d, 2) + "T" + Pad(h, 2) + ":" + Pad(mi, 2) + ":" + Pad(s, 2) + "." + Pad(ms, 3) + "Z"
  }

  const IsoPunctuation := {'-', ':', 'T', '.', 'Z'}

  /** `iso.replace(/[-:T.Z]/g, '').slice(0, 14)`. */
  function Timestamp(iso: string): (t: string)
    ensures |t| <= 14
    ensures forall i :: 0 <= i < |t| ==> t[i] !in IsoPunctuation
  {
    Take(Remove(iso, IsoPunctuation), 14)
  }

  lemma RemoveDigits(s: string)
    requires AllDigits(s)
    ensures Remove(s, IsoPunctuation) == s
  {
    forall i | 0 <= i < |s| ensures s[i] !in IsoPunctuation {
      assert IsDigit(s[i]);
    }
    RemoveNothing(s, IsoPunctuation);
  }

  /** Dropping a punctuation separator followed by digits keeps the digits. */
  lemma RemoveSepDigits(x: string, sep: char, a: string)
    requires sep in IsoPunctuation && AllDigits(a)
    ensures Remove(x + [sep] + a, IsoPunctuation) == Remove(x, IsoPunctuation) + a
  {
    RemoveAppend(x + [sep], a, IsoPunctuation);
    RemoveAppend(x, [sep], IsoPunctuation);
    RemoveDigits(a);
    assert Remove([sep], IsoPunctuation) == [] by {
      assert [sep][1..] == [];
    }
  }

  /** The ISO string without its punctuation is its digit groups run
      together. */
  lemma RemoveIsoPunctuation(y: nat, mo: nat, d: nat, h: nat, mi: nat, s: nat, ms: nat)
    ensures Remove(IsoString(y, mo, d, h, mi, s, ms), IsoPunctuation) ==
      Pad(y, 4) + Pad(mo, 2) + Pad(d, 2) + Pad(h, 2) + Pad(mi, 2) + Pad(s, 2) + Pad(ms, 3)
  {
    var p1 := Pad(y, 4);
    var p2 := p1 + "-" + Pad(mo, 2);
    var p3 := p2 + "-" + Pad(d, 2);
    var p4 := p3 + "T" + Pad(h, 2);
    var p5 := p4 + ":" + Pad(mi, 2);
    var p6 := p5 + ":" + Pad(s, 2);
    var p7 := p6 + "." + Pad(ms, 3);
    assert IsoString(y, mo, d, h, mi, s, ms) == p7 + "Z";
    RemoveDigits(p1);
    RemoveSepDigits(p1, '-', Pad(mo, 2));
    RemoveSepDigits(p2, '-', Pad(d, 2));
    RemoveSepDigits(p3, 'T', Pad(h, 2));
    RemoveSepDigits(p4, ':', Pad(mi, 2));
    RemoveSepDigits(p5, ':', Pad(s, 2));
    RemoveSepDigits(p6, '.', Pad(ms, 3));
    RemoveAppend(p7, "Z", IsoPunctuation);
    assert Remove("Z", IsoPunctuation) == [] by {
      assert "Z"[1..] == [];
    }
  }

  /** In range, the date and time groups are 14 digits long. */
  lemma DigitGroupsWidth(y: nat, mo: nat, d: nat, h: nat, mi: nat, s: nat)
    requires y < 10000 && mo < 100 && d < 100 && h < 100 && mi < 100 && s < 100
    ensures |Pad(y, 4) + Pad(mo, 2) + Pad(d, 2) + Pad(h, 2) + Pad(mi, 2) + Pad(s, 2)| == 14
  {
    assert Pow10(2) == 100 by {
      assert Pow10(1) == 10;
    }
    assert Pow10(4) == 10000 by {
      assert Pow10(3) == 1000;
    }
    PadWidth(y, 4);
    PadWidth(mo, 2);
    PadWidth(d, 2);
    PadWidth(h, 2);
    PadWidth(mi, 2);
    PadWidth(s, 2);
  }

  /** The file timestamp is `yyyyMMddHHmmss`: the date and time digits of
      the ISO string, without the milliseconds. */
  lemma TimestampOfIso(y: nat, mo: nat, d: nat, h: nat, mi: nat, s: nat, ms: nat)
    requires y < 10000 && mo < 100 && d < 100 && h < 100 && mi < 100 && s < 100
    ensures Timestamp(IsoString(y, mo, d, h, mi, s, ms)) ==
      Pad(y, 4) + Pad(mo, 2) + Pad(d, 2) + Pad(h, 2) + Pad(mi, 2) + Pad(s, 2)
  {
    var digits := Pad(y, 4) + Pad(mo, 2) + Pad(d, 2) + Pad(h, 2) + Pad(mi, 2) + Pad(s, 2);
    DigitGroupsWidth(y, mo, d, h, mi, s);
    RemoveIsoPunctuation(y, mo, d, h, mi, s, ms);
    assert Remove(IsoString(y, mo, d, h, mi, s, ms), IsoPunctuation) == digits + Pad(ms, 3);
    assert (digits + Pad(ms, 3))[..14] == digits;
  }

  // ------------------------------------------------------------ one company

  /** `mapCdEmpresa(cnatutitu)`: the contract nature '3' is the business
      collective plan, '4' the affiliation plan; anything else falls back
      to `Number(CD_EMPRESA || 27552)`. */
  function MapCdEmpresa(natureza: string, envCdEmpresa: string): (v: JsVal)
    ensures natureza == "3" ==> v == Num(27552)
    ensures natureza == "4" ==> v == Num(27543)
    ensures natureza != "3" && natureza != "4" && envCdEmpresa == "" ==> v == Num(27552)
    ensures natureza != "3" && natureza != "4" && envCdEmpresa != "" ==> v == ToNumber(Str(envCdEmpresa))
    ensures v.Num? || v.NaN?
  {
    if natureza == "3" then Num(27552)
    else if natureza == "4" then Num(27543)
    else ToNumber(Or(Str(envCdEmpresa), Num(27552)))
  }

  /** Without `CD_EMPRESA` the company code is one of the two plans'. */
  lemma MapCdEmpresaCodes(natureza: string)
    ensures MapCdEmpresa(natureza, "") == Num(27552) || MapCdEmpresa(natureza, "") == Num(27543)
  {
  }

  /** A `CD_EMPRESA` written in decimal is the code of every nature but
      '3' and '4'. */
  lemma MapCdEmpresaFromDecimal(natureza: string, n: nat)
    requires natureza != "3" && natureza != "4"
    ensures MapCdEmpresa(natureza, NatToDecimal(n)) == Num(n)
  {
    NumberOfDecimal(n);
  }

  /** Which query finds the company. */
  datatype Lookup = ByCnpj(cnpj: string) | ByNnumeusua(id: JsVal) | FirstActive

  const InvalidCnpjArg := "CNPJ inv\U{00E1}lido (precisa ter 14 d\U{00ED}gitos)."
  const NotFound := "Nenhuma empresa encontrada para gerar o JSON."
  const InvalidRow := "Registro inv\U{00E1}lido (nome vazio ou CNPJ \U{2260} 14)"

  /** `(get('--cnpj') || '').replace(/\D/g, '')`. */
  function CnpjArg(args: seq<string>): (c: string)
    ensures AllDigits(c)
  {
    KeepDigits(OrEmpty(ArgOrNull(args, "--cnpj")))
  }

  /** The lookup precedence: a CNPJ argument (rejected unless it has 14
      digits), then `--nnumeusua`, then the first active company. */
  function ChooseLookup(args: seq<string>): (r: Result<Lookup>)
    ensures r.Err? <==> CnpjArg(args) != "" && |CnpjArg(args)| != 14
    ensures r.Ok? && r.value.ByCnpj? ==> r.value.cnpj == CnpjArg(args) && |r.value.cnpj| == 14
    ensures r.Ok? && !r.value.ByCnpj? ==> CnpjArg(args) == ""
    ensures r.Ok? && r.value.ByNnumeusua? ==> Truthy(ArgOrNull(args, "--nnumeusua"))
    ensures r.Ok? && r.value.FirstActive? ==> !Truthy(ArgOrNull(args, "--nnumeusua"))
  {
    var cnpj := CnpjArg(args);
    if cnpj != "" then
      if |cnpj| != 14 then Err(InvalidCnpjArg) else Ok(ByCnpj(cnpj))
    else if Truthy(ArgOrNull(args, "--nnumeusua")) then Ok(ByNnumeusua(ArgOrNull(args, "--nnumeusua")))
    else Ok(FirstActive)
  }

  /** The single-company payload. */
  datatype UnBody = UnBody(cdEmpresa: JsVal, nome: string, nrCgc: string, cdOrgao: JsVal, cdGrupo: JsVal)

  /** The three queries' first rows, `None` for no row. */
  datatype Queries = Queries(byCnpj: string -> Option<Row>, byNnumeusua: JsVal -> Option<Row>, firstActive: Option<Row>)

  /** company-json-un.js end to end: choose the lookup, require a row,
      require a name and a 14-digit CNPJ, map the contract nature. Here the
      fields are read with `||`, not `??`. */
  function UnRun(args: seq<string>, envCdEmpresa: string, q: Queries): (r: Result<UnBody>)
    ensures ChooseLookup(args).Err? ==> r == Err(InvalidCnpjArg)
    ensures r.Ok? ==>
      && r.value.nome != "" && |r.value.nrCgc| == 14 && AllDigits(r.value.nrCgc)
      && r.value.cdOrgao == Null && r.value.cdGrupo == Null
      && (r.value.cdEmpresa.Num? || r.value.cdEmpresa.NaN?)
  {
    match ChooseLookup(args)
    case Err(e) => Err(e)
    case Ok(lookup) =>
      var found := match lookup
        case ByCnpj(c) => q.byCnpj(c)
        case ByNnumeusua(id) => q.byNnumeusua(id)
        case FirstActive => q.firstActive;
      match found
      case None => Err(NotFound)
      case Some(row) =>
        var nome := Trim(ToStr(Or(Or(Field(row, "NOME"), Field(row, "nome")), Str(""))));
        var cnpj := KeepDigits(ToStr(Or(Or(Field(row, "CNPJ"), Field(row, "cnpj")), Str(""))));
        var natureza := Trim(ToStr(Or(Or(Field(row, "NAT"), Field(row, "nat")), Str(""))));
        if nome == "" || |cnpj| != 14 then Err(InvalidRow)
        else Ok(UnBody(MapCdEmpresa(natureza, envCdEmpresa), nome, cnpj, Null, Null))
  }
}
