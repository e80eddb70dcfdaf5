/** `corrigirDepartamentos` (CorrigeDepartamentos.js): every local department
    whose CNPJ the partner confirms gets the partner's department id written
    into `odonto_depart`, unless it already holds it. */
module CorrigeDepartamentos {
  import opened Wrappers
  import opened Text
  import opened JsValues
  import opened Http
  import opened DepartRemote
  import Seqs

  const ConfigMissing := "ODONTO_BASE_APIV3 ou ODONTO_APIV3_TOKEN n\U{00E3}o configurados"
  const Motivo := "SEM_DADOS_COERENTES"

  /** An entry of `ignorados` (its `motivo` is always `Motivo`). */
  datatype Ignorado = Ignorado(idLocal: JsVal, depIdRemoto: JsVal, cnpjLocal: string, cnpjRemoto: string, respostaBruta: JsVal)

  /** An entry of `atualizados`. */
  datatype Atualizado = Atualizado(cnpj: string, idAntes: JsVal, idDepois: JsVal)

  /** An entry of `erros`. */
  datatype Erro = Erro(cnpj: string, idLocal: JsVal, erro: JsVal)

  /** What the loop decides for a row before touching the table. */
  datatype Action =
    | NoCnpj
    | Ignore(ignorado: Ignorado)
    | AlreadyRight
    | Update(cnpj: string, idAntes: JsVal, idDepois: JsVal)
    | Fail(erro: Erro)

  /** The partner confirms the row: a truthy department id under the same,
      non-empty CNPJ. */
  predicate Coherent(s: Stored, f: Fetched) {
    HasCnpj(s) && f.Got? && Truthy(f.remote.depId) && f.remote.cnpj != "" && CnpjLocal(s) == f.remote.cnpj
  }

  /** The row already holds the confirmed id: `idLocal && String(idLocal) ===
      String(depIdRemoto)`. */
  predicate HoldsRemoteId(s: Stored, f: Fetched)
    requires f.Got?
  {
    Truthy(IdLocal(s)) && ToStr(IdLocal(s)) == ToStr(f.remote.depId)
  }

  /** The decision for one row given the lookup of its CNPJ. */
  function Decide(s: Stored, f: Fetched): (a: Action)
    ensures a.NoCnpj? <==> !HasCnpj(s)
    ensures a.Fail? <==> HasCnpj(s) && f.Failed?
    ensures a.Ignore? <==> HasCnpj(s) && f.Got? && !Coherent(s, f)
    ensures a.AlreadyRight? <==> Coherent(s, f) && HoldsRemoteId(s, f)
    ensures a.Update? <==> Coherent(s, f) && !HoldsRemoteId(s, f)
    ensures a.Update? ==> a.cnpj == CnpjLocal(s) && a.idAntes == IdLocal(s) && a.idDepois == f.remote.depId
  {
    var idLocal := IdLocal(s);
    var cnpjLocal := CnpjLocal(s);
    if cnpjLocal == "" then NoCnpj
    else
      match f
      case Failed(_, resposta) => Fail(Erro(cnpjLocal, idLocal, resposta))
      case Got(remote) =>
        if !Truthy(remote.depId) || remote.cnpj == "" || cnpjLocal != remote.cnpj then
          Ignore(Ignorado(idLocal, remote.depId, cnpjLocal, remote.cnpj, remote.raw))
        else if Truthy(idLocal) && ToStr(idLocal) == ToStr(remote.depId) then AlreadyRight
        else Update(cnpjLocal, idLocal, remote.depId)
  }

  /** The table: the rows of `odonto_depart`, in the order they were read. */
  type Table = seq<Stored>

  /** `UPDATE odonto_depart SET id_odonto = :id WHERE cnpj = :cnpj`: every
      row whose stored CNPJ is exactly `cnpj` gets the id; no other row
      changes. */
  function SetId(t: Table, cnpj: string, id: JsVal): (r: Table)
    ensures |r| == |t|
    ensures forall i :: 0 <= i < |t| ==> r[i].cnpj == t[i].cnpj
    ensures forall i :: 0 <= i < |t| ==> r[i].id == if t[i].cnpj == Str(cnpj) then id else t[i].id
  {
    Seqs.Map((e: Stored) => if e.cnpj == Str(cnpj) then e.(id := id) else e, t)
  }

  /** The three lists and the table as the loop leaves them. */
  datatype State = State(table: Table, atualizados: seq<Atualizado>, ignorados: seq<Ignorado>, erros: seq<Erro>)

  /** The answers the loop depends on: the environment, the partner's answer
      to a GET of a URL, and the database's error (if any) for an UPDATE of
      a CNPJ to an id. */
  datatype World = World(env: Env, api: string -> Outcome, db: (string, JsVal) -> Option<string>)

  function FetchFor(w: World, s: Stored): Fetched {
    Fetch(w.env, w.api, ConfigMissing, CnpjLocal(s))
  }

  /** One iteration: `s` is the row as it was read before the loop, and the
      UPDATE applies to the table as it is now. A failed UPDATE is caught and
      recorded as an error with the database's message. */
  function Step(w: World, st: State, s: Stored): (r: State)
    ensures |r.atualizados| + |r.ignorados| + |r.erros| ==
      |st.atualizados| + |st.ignorados| + |st.erros| + (if Listed(Decide(s, FetchFor(w, s))) then 1 else 0)
  {
    match Decide(s, FetchFor(w, s))
    case NoCnpj => st
    case AlreadyRight => st
    case Ignore(ig) => st.(ignorados := st.ignorados + [ig])
    case Fail(e) => st.(erros := st.erros + [e])
    case Update(cnpj, idAntes, idDepois) =>
      match w.db(cnpj, idDepois)
      case Some(message) => st.(erros := st.erros + [Erro(cnpj, idAntes, Str(message))])
      case None =>
        st.(table := SetId(st.table, cnpj, idDepois), atualizados := st.atualizados + [Atualizado(cnpj, idAntes, idDepois)])
  }

  /** Only an update the database accepted touches the table, and then only
      the rows stored under that CNPJ, which get the partner's id. */
  lemma StepTable(w: World, st: State, s: Stored)
    ensures var r := Step(w, st, s);
      var a := Decide(s, FetchFor(w, s));
      && (a.Update? && w.db(a.cnpj, a.idDepois).None? ==>
            r.table == SetId(st.table, a.cnpj, a.idDepois) && r.atualizados == st.atualizados + [Atualizado(a.cnpj, a.idAntes, a.idDepois)])
      && (!(a.Update? && w.db(a.cnpj, a.idDepois).None?) ==> r.table == st.table && r.atualizados == st.atualizados)
  {
  }

  function Loop(w: World, t0: Table, rows: seq<Stored>): State {
    if rows == [] then State(t0, [], [], [])
    else Step(w, Loop(w, t0, rows[..|rows| - 1]), rows[|rows| - 1])
  }

  /** The report. */
  datatype Resumo = Resumo(
    totalLocais: nat,
    totalAtualizados: nat,
    totalIgnorados: nat,
    totalErros: nat,
    atualizados: seq<Atualizado>,
    ignorados: seq<Ignorado>,
    erros: seq<Erro>)

  /** `corrigirDepartamentos`: the loop runs over the rows read at the start,
      and the report's totals are its lists' lengths. */
  function Run(w: World, t: Table): (r: (Table, Resumo))
    ensures |r.0| == |t|
    ensures r.1.totalLocais == |t|
    ensures r.1.totalAtualizados == |r.1.atualizados| && r.1.totalIgnorados == |r.1.ignorados| && r.1.totalErros == |r.1.erros|
  {
    var st := Loop(w, t, t);
    LoopKeepsShape(w, t, t);
    (st.table, Resumo(|t|, |st.atualizados|, |st.ignorados|, |st.erros|, st.atualizados, st.ignorados, st.erros))
  }

  /** The loop changes ids only: the table keeps its rows and their CNPJs. */
  lemma {:induction false} LoopKeepsShape(w: World, t0: Table, rows: seq<Stored>)
    ensures |Loop(w, t0, rows).table| == |t0|
    ensures forall i :: 0 <= i < |t0| ==> Loop(w, t0, rows).table[i].cnpj == t0[i].cnpj
  {
    if rows != [] {
      LoopKeepsShape(w, t0, rows[..|rows| - 1]);
    }
  }

  predicate Listed(a: Action) {
    a.Ignore? || a.Update? || a.Fail?
  }

  /** Each row lands in at most one list: exactly one when it has a CNPJ and
      does not already hold the partner's id, none otherwise. */
  lemma {:induction false} LoopCounts(w: World, t0: Table, rows: seq<Stored>)
    ensures var st := Loop(w, t0, rows);
      |st.atualizados| + |st.ignorados| + |st.erros| ==
        Seqs.Count((s: Stored) => Listed(Decide(s, FetchFor(w, s))), rows)
  {
    if rows != [] {
      var init, x := rows[..|rows| - 1], rows[|rows| - 1];
      assert rows == init + [x];
      LoopCounts(w, t0, init);
      assert Loop(w, t0, rows) == Step(w, Loop(w, t0, init), x);
      var p := (s: Stored) => Listed(Decide(s, FetchFor(w, s)));
      Seqs.FilterAppend(p, init, [x]);
      Seqs.FilterCount(p, rows);
      Seqs.FilterCount(p, init);
      assert Seqs.Filter(p, [x]) == if p(x) then [x] else [] by {
        assert [x][1..] == [];
      }
    }
  }

  // ------------------------------------------------------------ rerunning

  /** A row is settled when the partner does not confirm it, or it already
      holds the confirmed id: a run makes no update for a settled row. */
  predicate Settled(w: World, e: Stored) {
    var f := FetchFor(w, e);
    Coherent(e, f) ==> HoldsRemoteId(e, f)
  }

  /** The CNPJs are stored as digit strings, as `enviarDepartamentos`
      inserts them. */
  predicate DigitsStored(t: Table) {
    forall i :: 0 <= i < |t| ==> t[i].cnpj.Str? && AllDigits(t[i].cnpj.s)
  }

  /** Writing the confirmed id of `c` settles every row stored under `c` and
      unsettles none. */
  lemma SetIdSettles(w: World, t: Table, s: Stored)
    requires Coherent(s, FetchFor(w, s))
    ensures var f := FetchFor(w, s);
      var r := SetId(t, CnpjLocal(s), f.remote.depId);
      forall i :: 0 <= i < |t| ==> (Settled(w, t[i]) || t[i].cnpj == Str(CnpjLocal(s)) ==> Settled(w, r[i]))
  {
    var f := FetchFor(w, s);
    var c := CnpjLocal(s);
    var r := SetId(t, c, f.remote.depId);
    forall i | 0 <= i < |t| && (Settled(w, t[i]) || t[i].cnpj == Str(c)) ensures Settled(w, r[i]) {
      if t[i].cnpj == Str(c) {
        assert CnpjLocal(r[i]) == c;
        assert FetchFor(w, r[i]) == f;
      } else {
        assert r[i] == t[i];
      }
    }
  }

  /** After `k` rows: the table has the snapshot's CNPJs, the first `k` rows
      are settled, and every later row is as read or settled. */
  ghost predicate Inv(w: World, snap: Table, t: Table, k: nat) {
    && |t| == |snap|
    && (forall i :: 0 <= i < |snap| ==> t[i].cnpj == snap[i].cnpj)
    && (forall i :: 0 <= i < k && i < |snap| ==> Settled(w, t[i]))
    && (forall i :: k <= i < |snap| ==> t[i] == snap[i] || Settled(w, t[i]))
  }

  lemma StepKeepsInv(w: World, snap: Table, st: State, k: nat)
    requires k < |snap| && DigitsStored(snap)
    requires forall c, id :: w.db(c, id).None?
    requires Inv(w, snap, st.table, k)
    ensures Inv(w, snap, Step(w, st, snap[k]).table, k + 1)
  {
    var s := snap[k];
    StepTable(w, st, s);
    if Decide(s, FetchFor(w, s)).Update? {
      assert w.db(CnpjLocal(s), FetchFor(w, s).remote.depId).None?;
      UpdateKeepsInv(w, snap, st.table, k);
    } else {
      SettledKeepsInv(w, snap, st.table, k);
    }
  }

  /** Writing the confirmed id of row `k` settles it and keeps the rest. */
  lemma UpdateKeepsInv(w: World, snap: Table, t: Table, k: nat)
    requires k < |snap| && DigitsStored(snap)
    requires Coherent(snap[k], FetchFor(w, snap[k]))
    requires Inv(w, snap, t, k)
    ensures Inv(w, snap, SetId(t, CnpjLocal(snap[k]), FetchFor(w, snap[k]).remote.depId), k + 1)
  {
    var c := CnpjLocal(snap[k]);
    var r := SetId(t, c, FetchFor(w, snap[k]).remote.depId);
    SetIdSettles(w, t, snap[k]);
    assert t[k].cnpj == Str(c);
    forall i | 0 <= i < k + 1 && i < |snap| ensures Settled(w, r[i]) {
      if i < k {
        assert Settled(w, t[i]);
      }
    }
    forall i | k + 1 <= i < |snap| ensures r[i] == snap[i] || Settled(w, r[i]) {
      if t[i].cnpj != Str(c) {
        assert r[i] == t[i];
      }
    }
  }

  /** A row that needs no update leaves the table as it is. */
  lemma SettledKeepsInv(w: World, snap: Table, t: Table, k: nat)
    requires k < |snap| && Settled(w, snap[k])
    requires Inv(w, snap, t, k)
    ensures Inv(w, snap, t, k + 1)
  {
  }

  lemma {:induction false} LoopInv(w: World, snap: Table, k: nat)
    requires k <= |snap| && DigitsStored(snap)
    requires forall c, id :: w.db(c, id).None?
    ensures Inv(w, snap, Loop(w, snap, snap[..k]).table, k)
  {
    if k > 0 {
      assert snap[..k][..k - 1] == snap[..k - 1];
      LoopInv(w, snap, k - 1);
      StepKeepsInv(w, snap, Loop(w, snap, snap[..k - 1]), k - 1);
    }
  }

  /** A run over settled rows updates nothing. */
  lemma {:induction false} SettledRowsNoUpdates(w: World, t0: Table, rows: seq<Stored>)
    requires forall i :: 0 <= i < |rows| ==> Settled(w, rows[i])
    ensures Loop(w, t0, rows).atualizados == []
  {
    if rows != [] {
      SettledRowsNoUpdates(w, t0, rows[..|rows| - 1]);
      StepTable(w, Loop(w, t0, rows[..|rows| - 1]), rows[|rows| - 1]);
    }
  }

  /** Rerunning the correction against the same partner answers updates
      nothing: every row the first run updated already holds the partner's
      id, and the rows it did not update were settled already. This needs
      the CNPJs stored as digits (otherwise the UPDATE matches no row) and
      every UPDATE accepted. */
  lemma RerunUpdatesNothing(w: World, t: Table)
    requires DigitsStored(t)
    requires forall c, id :: w.db(c, id).None?
    ensures Run(w, Run(w, t).0).1.atualizados == []
  {
    LoopInv(w, t, |t|);
    assert t[..|t|] == t;
    var t1 := Run(w, t).0;
    SettledRowsNoUpdates(w, t1, t1);
  }
}
