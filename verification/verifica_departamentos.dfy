/** `verificarDepartamentos` (VerificaDepartamentos.js): every local
    department is compared with the partner's record for its CNPJ and lands
    in the report as consistent, inconsistent or failed. Nothing is
    written to the table. */
module VerificaDepartamentos {
  import opened Wrappers
  import opened JsValues
  import opened Http
  import opened DepartRemote
  import Seqs

  const ConfigMissing := "ODONTO_BASE_APIV3 ou ODONTO_APIV3_TOKEN n\U{00E3}o configurados no .env"

  /** `baseItem`: both sides of the comparison. */
  datatype BaseItem = BaseItem(idLocal: JsVal, depIdRemoto: JsVal, cnpjLocal: string, cnpjRemoto: string)

  /** An entry of `inconsistentes`. */
  datatype Inconsistente =
    | SemDadosApi(item: BaseItem, respostaBruta: JsVal)
    | Divergencia(cnpjDiferente: bool, idDiferente: bool, faltaIdLocal: bool, item: BaseItem, respostaBruta: JsVal)

  /** An entry of `errosApi`. */
  datatype ErroApi = ErroApi(cnpjLocal: string, idLocal: JsVal, status: JsVal, resposta: JsVal)

  /** Where a local row goes. */
  datatype Verdict =
    | NoCnpj
    | Consistent(item: BaseItem)
    | Inconsistent(inc: Inconsistente)
    | Unreachable(err: ErroApi)

  /** `idDif`: both ids present and printed differently. */
  predicate IdDif(idLocal: JsVal, depIdRemoto: JsVal) {
    !Nullish(idLocal) && !Nullish(depIdRemoto) && ToStr(idLocal) != ToStr(depIdRemoto)
  }

  /** The classification of one local row given the lookup of its CNPJ. */
  function Classify(s: Stored, f: Fetched): (v: Verdict)
    ensures v.NoCnpj? <==> !HasCnpj(s)
    ensures v.Unreachable? <==> HasCnpj(s) && f.Failed?
    ensures v.Inconsistent? && v.inc.SemDadosApi? <==>
      HasCnpj(s) && f.Got? && !Truthy(f.remote.depId) && f.remote.cnpj == ""
    ensures v.Inconsistent? && v.inc.Divergencia? <==>
      && HasCnpj(s) && f.Got? && (Truthy(f.remote.depId) || f.remote.cnpj != "")
      && (CnpjLocal(s) != f.remote.cnpj || IdDif(IdLocal(s), f.remote.depId) || Nullish(IdLocal(s)))
    ensures v.Inconsistent? && v.inc.Divergencia? ==>
      && v.inc.cnpjDiferente == (CnpjLocal(s) != f.remote.cnpj)
      && v.inc.idDiferente == IdDif(IdLocal(s), f.remote.depId)
      && v.inc.faltaIdLocal == Nullish(IdLocal(s))
    ensures v.Unreachable? ==> v.err == ErroApi(CnpjLocal(s), IdLocal(s), f.status, f.resposta)
  {
    var idLocal := IdLocal(s);
    var cnpjLocal := CnpjLocal(s);
    if cnpjLocal == "" then NoCnpj
    else
      match f
      case Failed(status, resposta) => Unreachable(ErroApi(cnpjLocal, idLocal, status, resposta))
      case Got(remote) =>
        var item := BaseItem(idLocal, remote.depId, cnpjLocal, remote.cnpj);
        if !Truthy(remote.depId) && remote.cnpj == "" then Inconsistent(SemDadosApi(item, remote.raw))
        else
          var cnpjDif := cnpjLocal != remote.cnpj;
          var idDif := IdDif(idLocal, remote.depId);
          if cnpjDif || idDif || Nullish(idLocal) then
            Inconsistent(Divergencia(cnpjDif, idDif, Nullish(idLocal), item, remote.raw))
          else Consistent(item)
  }

  /** A row is reported consistent exactly when the partner knows a
      department under the same CNPJ, the local id is present, and the
      partner's id is either absent or prints the same. An absent remote id
      therefore does not count against a row. */
  lemma ConsistentMeans(s: Stored, f: Fetched)
    ensures Classify(s, f).Consistent? <==>
      && HasCnpj(s) && f.Got? && CnpjLocal(s) == f.remote.cnpj && !Nullish(IdLocal(s))
      && (Nullish(f.remote.depId) || ToStr(IdLocal(s)) == ToStr(f.remote.depId))
  {
  }

  /** The report: the three totals and the two lists of problems; the rows
      found consistent are only counted. */
  datatype Resumo = Resumo(
    totalLocais: nat,
    totalOk: nat,
    totalInconsistentes: nat,
    totalErrosApi: nat,
    inconsistentes: seq<Inconsistente>,
    errosApi: seq<ErroApi>)

  /** The three lists being filled; only the last two are returned. */
  datatype Buckets = Buckets(ok: seq<BaseItem>, inconsistentes: seq<Inconsistente>, errosApi: seq<ErroApi>)

  function Place(b: Buckets, v: Verdict): (r: Buckets)
    ensures |r.ok| + |r.inconsistentes| + |r.errosApi| ==
      |b.ok| + |b.inconsistentes| + |b.errosApi| + (if v.NoCnpj? then 0 else 1)
  {
    match v
    case NoCnpj => b
    case Consistent(item) => b.(ok := b.ok + [item])
    case Inconsistent(inc) => b.(inconsistentes := b.inconsistentes + [inc])
    case Unreachable(err) => b.(errosApi := b.errosApi + [err])
  }

  function Verdicts(env: Env, api: string -> Outcome, locais: seq<Stored>): (vs: seq<Verdict>)
    ensures |vs| == |locais|
    ensures forall i :: 0 <= i < |locais| ==> vs[i] == Classify(locais[i], Fetch(env, api, ConfigMissing, CnpjLocal(locais[i])))
  {
    Seqs.Map((s: Stored) => Classify(s, Fetch(env, api, ConfigMissing, CnpjLocal(s))), locais)
  }

  function Fill(vs: seq<Verdict>): Buckets {
    if vs == [] then Buckets([], [], []) else Place(Fill(vs[..|vs| - 1]), vs[|vs| - 1])
  }

  /** `verificarDepartamentos`: the lookup is made only for rows with a CNPJ,
      and every failure is caught per row, so the run always completes. */
  function Run(env: Env, api: string -> Outcome, locais: seq<Stored>): (r: Resumo)
    ensures r.totalLocais == |locais|
    ensures r.totalOk == |Fill(Verdicts(env, api, locais)).ok|
    ensures r.totalInconsistentes == |r.inconsistentes| && r.totalErrosApi == |r.errosApi|
  {
    var b := Fill(Verdicts(env, api, locais));
    Resumo(|locais|, |b.ok|, |b.inconsistentes|, |b.errosApi|, b.inconsistentes, b.errosApi)
  }

  predicate Placed(v: Verdict) {
    !v.NoCnpj?
  }

  /** Each verdict other than "no CNPJ" fills exactly one list. */
  lemma {:induction false} FillCounts(vs: seq<Verdict>)
    ensures var b := Fill(vs); |b.ok| + |b.inconsistentes| + |b.errosApi| == Seqs.Count(Placed, vs)
  {
    if vs != [] {
      var init, x := vs[..|vs| - 1], vs[|vs| - 1];
      assert vs == init + [x];
      FillCounts(init);
      Seqs.FilterAppend(Placed, init, [x]);
      Seqs.FilterCount(Placed, vs);
      Seqs.FilterCount(Placed, init);
      assert Seqs.Filter(Placed, [x]) == if Placed(x) then [x] else [] by {
        assert [x][1..] == [];
      }
    }
  }

  /** Counting is the same over the rows and over their verdicts. */
  lemma {:induction false} CountVerdicts(env: Env, api: string -> Outcome, locais: seq<Stored>)
    ensures Seqs.Count(Placed, Verdicts(env, api, locais)) == Seqs.Count(HasCnpj, locais)
  {
    if locais != [] {
      var vs := Verdicts(env, api, locais);
      assert vs[1..] == Verdicts(env, api, locais[1..]);
      CountVerdicts(env, api, locais[1..]);
    }
  }

  /** Every row with a CNPJ lands in exactly one of the three lists, and a
      row without one in none: the totals add up to the rows with a CNPJ. */
  lemma RunAccountsForEveryRow(env: Env, api: string -> Outcome, locais: seq<Stored>)
    ensures var r := Run(env, api, locais);
      r.totalOk + r.totalInconsistentes + r.totalErrosApi == Seqs.Count(HasCnpj, locais) <= r.totalLocais
  {
    FillCounts(Verdicts(env, api, locais));
    CountVerdicts(env, api, locais);
  }

  /** Without the base URL or the token no row can be checked: every row
      with a CNPJ is reported as an API error carrying the configuration
      message. */
  lemma UnconfiguredRunFailsEveryRow(env: Env, api: string -> Outcome, s: Stored)
    requires env.base == "" || env.token == ""
    requires HasCnpj(s)
    ensures Classify(s, Fetch(env, api, ConfigMissing, CnpjLocal(s))) ==
      Unreachable(ErroApi(CnpjLocal(s), IdLocal(s), Undef, Str(ConfigMissing)))
  {
  }
}
