/** Grouping of beneficiary rows into families and the choice of each
    family's titular, as the two generators do before building payloads
    (`gerarApenasJsonBeneficiarios` and `gerarJsonBeneficiarios`). */
module Grouping {
  import opened Wrappers
  import opened JsValues
  import opened BeneficiarioPayload
  import Seqs

  /** `get(row, 'titular') || get(row, 'nnumeusua')`: the family a row
      belongs to, the titular's id or else the row's own id. */
  function GroupKey(row: Row): (k: JsVal)
    ensures k == Col(row, "titular") || k == Col(row, "nnumeusua")
    ensures Truthy(Col(row, "titular")) ==> k == Col(row, "titular")
    ensures !Truthy(Col(row, "titular")) ==> k == Col(row, "nnumeusua")
  {
    Or(Col(row, "titular"), Col(row, "nnumeusua"))
  }

  /** One entry of the `grupos` Map: a key and its rows in arrival order. */
  type Group = Seqs.Group<JsVal, Row>

  /** The grouping loop: each row is pushed into the group of its key, and a
      new key opens a group after the existing ones. Keys are compared as a
      JavaScript `Map` compares primitive keys (SameValueZero), which on this
      value model is plain equality. */
  function GroupRows(rows: seq<Row>): (gs: seq<Group>)
    ensures |gs| <= |rows|
  {
    Seqs.GroupBy(GroupKey, rows)
  }

  /** The rows of the family keyed `k`, in their order: the reference
      definition the grouping loop is compared with. */
  function RowsWithKey(rows: seq<Row>, k: JsVal): seq<Row> {
    Seqs.WithKey(GroupKey, rows, k)
  }

  /** The grouping is a partition of the rows: keys are distinct, each group
      is non-empty and holds exactly the rows with its key in input order, and
      every row's key has a group. */
  lemma GroupRowsPartitions(rows: seq<Row>)
    ensures var gs := GroupRows(rows);
      && Seqs.DistinctKeys(gs)
      && (forall i :: 0 <= i < |gs| ==> gs[i].items == RowsWithKey(rows, gs[i].key) && gs[i].items != [])
      && (forall r :: r in rows ==> Seqs.KeyIndex(gs, GroupKey(r)) >= 0)
  {
    Seqs.GroupByPartitions(GroupKey, rows);
  }

  /** Every row lands in exactly one group: the one whose key is the row's. */
  lemma RowInExactlyOneGroup(rows: seq<Row>, x: Row, i: int)
    requires x in rows && 0 <= i < |GroupRows(rows)|
    ensures x in GroupRows(rows)[i].items <==> GroupRows(rows)[i].key == GroupKey(x)
  {
    GroupRowsPartitions(rows);
    Seqs.WithKeyMembership(GroupKey, rows, GroupRows(rows)[i].key, x);
  }

  // ------------------------------------------------------------ titular choice

  /** `Number(get(r, 'tipo_usuario')) === 1`. */
  predicate IsTitularRow(row: Row) {
    ToNumber(Col(row, "tipo_usuario")) == Num(1)
  }

  /** `grupoRows.find(r => Number(get(r, 'tipo_usuario')) === 1)`. */
  function FindTitular(rows: seq<Row>): (r: Option<Row>)
    ensures r.None? <==> forall i :: 0 <= i < |rows| ==> !IsTitularRow(rows[i])
    ensures r.Some? ==> exists i :: Seqs.FirstAt(IsTitularRow, rows, i) && rows[i] == r.value
  {
    Seqs.FindFirst(IsTitularRow, rows)
  }

  /** `buscarTitularPorId(titularId)`: no lookup for a falsy id; otherwise
      the first row the titular query returns. `titulares` maps an id to that
      row; an id without one stands for an empty result or a failed query. */
  function FetchTitular(titulares: map<JsVal, Row>, id: JsVal): (r: Option<Row>)
    ensures r.Some? <==> Truthy(id) && id in titulares
    ensures r.Some? ==> r.value == titulares[id]
  {
    if !Truthy(id) then None
    else if id in titulares then Some(titulares[id])
    else None
  }

  /** A family ready to be built: its titular and its (possibly extended) rows. */
  datatype Family = Family(key: JsVal, titular: Row, rows: seq<Row>)

  /** The titular of the group is its first titular row; a group without one
      gets the fetched titular put in front (`grupoRows.unshift`), or is
      skipped when there is none. */
  function ResolveGroup(g: Group, titulares: map<JsVal, Row>): (r: Option<Family>)
    ensures r.None? <==> FindTitular(g.items).None? && FetchTitular(titulares, g.key).None?
    ensures r.Some? ==> r.value.key == g.key && r.value.titular in r.value.rows
    ensures r.Some? && FindTitular(g.items).Some? ==>
      r.value.titular == FindTitular(g.items).value && r.value.rows == g.items
    ensures r.Some? && FindTitular(g.items).None? ==>
      r.value.rows == [r.value.titular] + g.items && r.value.titular == titulares[g.key]
  {
    match FindTitular(g.items)
    case Some(t) => Some(Family(g.key, t, g.items))
    case None =>
      match FetchTitular(titulares, g.key)
      case None => None
      case Some(t) => Some(Family(g.key, t, [t] + g.items))
  }

  /** The families of a run, in the order their keys first appeared. */
  function Families(groups: seq<Group>, titulares: map<JsVal, Row>): (fs: seq<Family>)
    ensures |fs| <= |groups|
  {
    if groups == [] then []
    else
      var rest := Families(groups[1..], titulares);
      match ResolveGroup(groups[0], titulares)
      case None => rest
      case Some(f) => [f] + rest
  }

  /** A family is produced for a group exactly when the group resolves, so
      the families are the resolvable groups, each once. */
  lemma {:induction false} FamiliesAreResolvedGroups(groups: seq<Group>, titulares: map<JsVal, Row>)
    ensures |Families(groups, titulares)| ==
      Seqs.Count((g: Group) => ResolveGroup(g, titulares).Some?, groups)
    ensures forall f :: f in Families(groups, titulares) ==>
      exists g :: g in groups && ResolveGroup(g, titulares) == Some(f)
  {
    if groups != [] {
      FamiliesAreResolvedGroups(groups[1..], titulares);
      forall f | f in Families(groups, titulares)
        ensures exists g :: g in groups && ResolveGroup(g, titulares) == Some(f)
      {
        if f !in Families(groups[1..], titulares) {
          assert ResolveGroup(groups[0], titulares) == Some(f);
        } else {
          var g :| g in groups[1..] && ResolveGroup(g, titulares) == Some(f);
          assert g in groups;
        }
      }
    }
  }

  /** Families carry distinct keys when the groups do. */
  lemma {:induction false} FamilyKeysDistinct(groups: seq<Group>, titulares: map<JsVal, Row>)
    requires Seqs.DistinctKeys(groups)
    ensures var fs := Families(groups, titulares);
      forall i, j :: 0 <= i < j < |fs| ==> fs[i].key != fs[j].key
  {
    if groups != [] {
      var tail := groups[1..];
      assert Seqs.DistinctKeys(tail) by {
        forall i, j | 0 <= i < j < |tail| ensures tail[i].key != tail[j].key {
          assert tail[i] == groups[i + 1] && tail[j] == groups[j + 1];
        }
      }
      FamilyKeysDistinct(tail, titulares);
      TailFamiliesOtherKeys(groups, titulares);
      var head := FamiliesCons(groups, titulares);
      KeysDistinctCons(head, Families(tail, titulares), groups[0].key);
    }
  }

  /** The families of the later groups do not carry the first group's key. */
  lemma TailFamiliesOtherKeys(groups: seq<Group>, titulares: map<JsVal, Row>)
    requires groups != [] && Seqs.DistinctKeys(groups)
    ensures var rest := Families(groups[1..], titulares);
      forall j :: 0 <= j < |rest| ==> rest[j].key != groups[0].key
  {
    var tail := groups[1..];
    FamiliesAreResolvedGroups(tail, titulares);
    var rest := Families(tail, titulares);
    forall j | 0 <= j < |rest| ensures rest[j].key != groups[0].key {
      assert rest[j] in rest;
      var g :| g in tail && ResolveGroup(g, titulares) == Some(rest[j]);
      var m :| 0 <= m < |tail| && tail[m] == g;
      assert tail[m] == groups[m + 1];
    }
  }

  /** The families of a non-empty list: the first group's, if it resolves,
      then the rest's. */
  lemma FamiliesCons(groups: seq<Group>, titulares: map<JsVal, Row>) returns (head: seq<Family>)
    requires groups != []
    ensures Families(groups, titulares) == head + Families(groups[1..], titulares)
    ensures |head| <= 1 && (|head| == 1 ==> head[0].key == groups[0].key)
  {
    head := match ResolveGroup(groups[0], titulares) case None => [] case Some(f) => [f];
  }

  /** At most one family of key `k` in front of families with distinct keys
      other than `k` keeps the keys distinct. */
  lemma KeysDistinctCons(head: seq<Family>, rest: seq<Family>, k: JsVal)
    requires |head| <= 1 && (|head| == 1 ==> head[0].key == k)
    requires forall i, j :: 0 <= i < j < |rest| ==> rest[i].key != rest[j].key
    requires forall j :: 0 <= j < |rest| ==> rest[j].key != k
    ensures var fs := head + rest;
      forall i, j :: 0 <= i < j < |fs| ==> fs[i].key != fs[j].key
  {
    var fs := head + rest;
    forall i, j | 0 <= i < j < |fs| ensures fs[i].key != fs[j].key {
      if i < |head| {
        assert fs[j] == rest[j - |head|];
      } else {
        assert fs[i] == rest[i - |head|] && fs[j] == rest[j - |head|];
      }
    }
  }

  /** Every group that resolves has its family in the run. */
  lemma {:induction false} ResolvedGroupHasFamily(groups: seq<Group>, titulares: map<JsVal, Row>, g: Group)
    requires g in groups && ResolveGroup(g, titulares).Some?
    ensures ResolveGroup(g, titulares).value in Families(groups, titulares)
  {
    if groups[0] != g {
      ResolvedGroupHasFamily(groups[1..], titulares, g);
    }
  }

  /** The family keyed `k` resolves: the rows with that key, in order, have
      a titular row or the database knows one. */
  predicate KeyResolves(rows: seq<Row>, titulares: map<JsVal, Row>, k: JsVal) {
    ResolveGroup(Seqs.Group(k, RowsWithKey(rows, k)), titulares).Some?
  }

  /** The families of a run, stated on the input rows: one per resolving
      group, keys distinct, each holding its titular and rows of its own key
      only, and every row whose key resolves in the family of that key. */
  lemma FamiliesOfRows(rows: seq<Row>, titulares: map<JsVal, Row>)
    ensures var gs := GroupRows(rows); var fs := Families(gs, titulares);
      && |fs| == Seqs.Count((g: Group) => ResolveGroup(g, titulares).Some?, gs)
      && (forall i, j :: 0 <= i < j < |fs| ==> fs[i].key != fs[j].key)
      && (forall i, y :: 0 <= i < |fs| && y in fs[i].rows ==>
            y == fs[i].titular || (y in rows && GroupKey(y) == fs[i].key))
      && (forall x :: x in rows && KeyResolves(rows, titulares, GroupKey(x)) ==>
            exists i :: 0 <= i < |fs| && fs[i].key == GroupKey(x) && x in fs[i].rows)
  {
    var gs := GroupRows(rows);
    GroupRowsDistinct(rows);
    FamiliesAreResolvedGroups(gs, titulares);
    FamilyKeysDistinct(gs, titulares);
    var fs := Families(gs, titulares);
    forall i, y | 0 <= i < |fs| && y in fs[i].rows
      ensures y == fs[i].titular || (y in rows && GroupKey(y) == fs[i].key)
    {
      FamilyRowOwnKey(rows, titulares, i, y);
    }
    forall x | x in rows && KeyResolves(rows, titulares, GroupKey(x))
      ensures exists i :: 0 <= i < |fs| && fs[i].key == GroupKey(x) && x in fs[i].rows
    {
      RowInItsFamily(rows, titulares, x);
    }
  }

  lemma GroupRowsDistinct(rows: seq<Row>)
    ensures Seqs.DistinctKeys(GroupRows(rows))
  {
    GroupRowsPartitions(rows);
  }

  /** A family holds its titular and rows of its own key only. */
  lemma FamilyRowOwnKey(rows: seq<Row>, titulares: map<JsVal, Row>, i: nat, y: Row)
    requires i < |Families(GroupRows(rows), titulares)| && y in Families(GroupRows(rows), titulares)[i].rows
    ensures var f := Families(GroupRows(rows), titulares)[i];
      y == f.titular || (y in rows && GroupKey(y) == f.key)
  {
    var gs := GroupRows(rows);
    var f := Families(gs, titulares)[i];
    FamiliesAreResolvedGroups(gs, titulares);
    assert f in Families(gs, titulares);
    var g :| g in gs && ResolveGroup(g, titulares) == Some(f);
    var m :| 0 <= m < |gs| && gs[m] == g;
    if y != f.titular {
      assert y in g.items;
      GroupRowsPartitions(rows);
      assert g.items == Seqs.WithKey(GroupKey, rows, g.key);
    }
  }

  /** A row whose key resolves is in the family of its key. */
  lemma RowInItsFamily(rows: seq<Row>, titulares: map<JsVal, Row>, x: Row)
    requires x in rows && KeyResolves(rows, titulares, GroupKey(x))
    ensures var fs := Families(GroupRows(rows), titulares);
      exists i :: 0 <= i < |fs| && fs[i].key == GroupKey(x) && x in fs[i].rows
  {
    var gs := GroupRows(rows);
    var fs := Families(gs, titulares);
    GroupRowsPartitions(rows);
    var m := Seqs.KeyIndex(gs, GroupKey(x));
    var g := gs[m];
    assert g == Seqs.Group(GroupKey(x), RowsWithKey(rows, GroupKey(x)));
    RowInExactlyOneGroup(rows, x, m);
    ResolvedGroupHasFamily(gs, titulares, g);
    var f := ResolveGroup(g, titulares).value;
    var i :| 0 <= i < |fs| && fs[i] == f;
    assert x in f.rows;
  }

  // ------------------------------------------------------------ preview run

  /** `buscarCepOdonto(cep)` seen from the generator: no lookup for an empty
      CEP; `ceps` maps a CEP to the `dados` the CEP service returned, and a
      CEP without an entry stands for any failure (which yields `null`). */
  function CepInfo(ceps: map<string, Row>, cep: string): (r: Option<Row>)
    ensures r.Some? <==> cep != "" && cep in ceps
  {
    if cep != "" && cep in ceps then Some(ceps[cep]) else None
  }

  /** One element of the preview file: `{ token, dados }`. */
  datatype PreviewEntry = PreviewEntry(token: string, dados: Dados)

  /** `process.env.ODONTO_S4E_TOKEN || 'TOKEN_NAO_CONFIGURADO'`. */
  function S4eTokenOrPlaceholder(env: string): (r: string)
    ensures r != ""
    ensures env != "" ==> r == env
  {
    if env != "" then env else "TOKEN_NAO_CONFIGURADO"
  }

  /** The AssociadoPJ body of a family. */
  function FamilyDados(f: Family, ceps: map<string, Row>, variant: Variant): (d: Dados)
    ensures BuildDados(f.rows, CepInfo(ceps, OnlyDigits(Col(f.titular, "cep"))), Some(f.titular), variant) == Ok(d)
  {
    BuildDados(f.rows, CepInfo(ceps, OnlyDigits(Col(f.titular, "cep"))), Some(f.titular), variant).value
  }

  /** A family's body has a life for each of its rows. */
  lemma FamilyDadosHasLife(f: Family, ceps: map<string, Row>, variant: Variant, x: Row)
    requires x in f.rows
    ensures BuildVida(x, variant, InclusaoTitular(f.titular)) in FamilyDados(f, ceps, variant).dependente
  {
    var vs := FamilyDados(f, ceps, variant).dependente;
    var k :| 0 <= k < |f.rows| && f.rows[k] == x;
    assert vs[k] == BuildVida(x, variant, InclusaoTitular(f.titular));
  }

  /** `gerarApenasJsonBeneficiarios`: one entry per resolving family, in
      family order, each under the configured token or its placeholder.
      Stated on the input rows: there are as many entries as resolving
      groups; the entries belong to distinct keys; and every row whose key
      resolves has its life in the entry of its key. An empty result means
      no file is written. */
  function PreviewRun(rows: seq<Row>, titulares: map<JsVal, Row>, ceps: map<string, Row>, envToken: string)
    : (entries: seq<PreviewEntry>)
    ensures var fs := Families(GroupRows(rows), titulares);
      && |entries| == |fs| == Seqs.Count((g: Group) => ResolveGroup(g, titulares).Some?, GroupRows(rows))
      && (forall i :: 0 <= i < |fs| ==>
            entries[i].token == S4eTokenOrPlaceholder(envToken) && entries[i].dados == FamilyDados(fs[i], ceps, Preview))
      && (forall i, j :: 0 <= i < j < |fs| ==> fs[i].key != fs[j].key)
      && (forall x :: x in rows && KeyResolves(rows, titulares, GroupKey(x)) ==>
            exists i :: 0 <= i < |fs| && fs[i].key == GroupKey(x)
              && BuildVida(x, Preview, InclusaoTitular(fs[i].titular)) in entries[i].dados.dependente)
  {
    var fs := Families(GroupRows(rows), titulares);
    var entries := Seqs.Map((f: Family) => PreviewEntry(S4eTokenOrPlaceholder(envToken), FamilyDados(f, ceps, Preview)), fs);
    PreviewCoversRows(rows, titulares, ceps, envToken, entries);
    entries
  }

  /** The covering half of `PreviewRun`, for the entries it builds. */
  lemma PreviewCoversRows(rows: seq<Row>, titulares: map<JsVal, Row>, ceps: map<string, Row>, envToken: string,
                          entries: seq<PreviewEntry>)
    requires var fs := Families(GroupRows(rows), titulares);
      |entries| == |fs| && forall i :: 0 <= i < |fs| ==> entries[i].dados == FamilyDados(fs[i], ceps, Preview)
    ensures var fs := Families(GroupRows(rows), titulares);
      && |fs| == Seqs.Count((g: Group) => ResolveGroup(g, titulares).Some?, GroupRows(rows))
      && (forall i, j :: 0 <= i < j < |fs| ==> fs[i].key != fs[j].key)
      && (forall x :: x in rows && KeyResolves(rows, titulares, GroupKey(x)) ==>
            exists i :: 0 <= i < |fs| && fs[i].key == GroupKey(x)
              && BuildVida(x, Preview, InclusaoTitular(fs[i].titular)) in entries[i].dados.dependente)
  {
    var fs := Families(GroupRows(rows), titulares);
    FamiliesOfRows(rows, titulares);
    forall x | x in rows && KeyResolves(rows, titulares, GroupKey(x))
      ensures exists i :: (0 <= i < |fs| && fs[i].key == GroupKey(x)
        && BuildVida(x, Preview, InclusaoTitular(fs[i].titular)) in entries[i].dados.dependente)
    {
      var i :| 0 <= i < |fs| && fs[i].key == GroupKey(x) && x in fs[i].rows;
      FamilyDadosHasLife(fs[i], ceps, Preview, x);
    }
  }
}
