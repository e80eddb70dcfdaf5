/** The run of `gerarJsonBeneficiarios` (GeraJsonBeneficiarios_bkp.js): each
    family in turn, its AssociadoPJ entry ahead of its dependents, and the
    log file written from the collected payloads. */
module BeneficiarioDispatchRun {
  import opened Wrappers
  import opened Text
  import opened JsValues
  import opened Http
  import opened BeneficiarioPayload
  import opened Grouping
  import opened AuditLog
  import opened BeneficiarioDispatch
  import Seqs

  /** The control flow of one family once its pieces are known: the
      AssociadoPJ entry is recorded first; a missing S4E configuration throws
      before the send; an answer whose message has no `includes` throws after
      it; otherwise the dependents' entries and audit rows follow only for a
      registered titular with a truthy contract number. The pieces are
      functions of the request, so computing one the source never reaches
      changes nothing. */
  function FamilyStep(pj: Entry, configured: bool, vidaLog: BenefLog, decision: Result<bool>, m: JsVal, deps: Run)
    : (r: Run)
    ensures |r.entries| >= 1 && r.entries[0] == pj
  {
    if !configured then Run([pj], [], Some(ConfigMissing))
    else
      match decision
      case Err(e) => Run([pj], [vidaLog], Some(e))
      case Ok(registered) =>
        if !registered || !Truthy(m) then Run([pj], [vidaLog], None)
        else Run([pj] + deps.entries, [vidaLog] + deps.audit, None)
  }

  /** The dependents' part of a family reaches the run only for a registered
      titular with a contract number, and keeps one audit row per entry. */
  lemma FamilyStepShape(pj: Entry, configured: bool, vidaLog: BenefLog, decision: Result<bool>, m: JsVal, deps: Run)
    requires |deps.entries| == |deps.audit| && deps.error.None?
    ensures var r := FamilyStep(pj, configured, vidaLog, decision, m, deps);
      && (|r.entries| > 1 ==> configured && decision == Ok(true) && Truthy(m) && r.entries[1..] == deps.entries)
      && (configured && decision == Ok(true) && Truthy(m) ==> r.entries[1..] == deps.entries && r.error.None?)
      && (r.error.None? ==> |r.audit| == |r.entries|)
  {
  }

  /** The body of the loop over families in `gerarJsonBeneficiarios`. */
  function DispatchFamily(f: Family, ceps: map<string, Row>, env: Env, p: Partner): (r: Run)
    ensures |r.entries| >= 1 && r.entries[0] == PjEntry(f, ceps, env)
  {
    var sent := VidaSent(f, ceps, env, p);
    var m := FamilyMatricula(f, env, p);
    FamilyStep(PjEntry(f, ceps, env), env.baseApiV3 != "" && env.s4eToken != "",
      sent.log, TitularJaCadastrado(sent.data), m, SendDependents(f, m, env, p))
  }

  /** NovoDependente is reached only for a family the partner reports as
      already registered and whose contract number was found; then exactly
      one entry is sent per non-titular row, in group order, each after the
      family's AssociadoPJ entry and tagged with the family's key. */
  lemma DispatchFamilyShape(f: Family, ceps: map<string, Row>, env: Env, p: Partner)
    ensures var r := DispatchFamily(f, ceps, env, p);
      && (|r.entries| > 1 ==>
           (&& env.baseApiV3 != "" && env.s4eToken != ""
            && TitularJaCadastrado(VidaSent(f, ceps, env, p).data) == Ok(true)
            && Truthy(FamilyMatricula(f, env, p))))
      && (forall i :: 0 < i < |r.entries| ==> r.entries[i].NovoDependente? && r.entries[i].titularId == f.key)
      && (r.error.None? ==> |r.audit| == |r.entries|)
  {
    var m := FamilyMatricula(f, env, p);
    var deps := SendDependents(f, m, env, p);
    var sent := VidaSent(f, ceps, env, p);
    FamilyStepShape(PjEntry(f, ceps, env), env.baseApiV3 != "" && env.s4eToken != "",
      sent.log, TitularJaCadastrado(sent.data), m, deps);
  }

  /** When the partner reports the titular as registered and the contract
      number is known, the entries after AssociadoPJ are the NovoDependente
      bodies of exactly the non-titular rows, in order. */
  lemma DependentsSentInOrder(f: Family, ceps: map<string, Row>, env: Env, p: Partner)
    requires env.baseApiV3 != "" && env.s4eToken != ""
    requires TitularJaCadastrado(VidaSent(f, ceps, env, p).data) == Ok(true)
    requires Truthy(FamilyMatricula(f, env, p))
    ensures var r := DispatchFamily(f, ceps, env, p);
      var m := FamilyMatricula(f, env, p);
      && r.error.None?
      && |r.entries| == 1 + Seqs.Count(IsDependentRow, f.rows)
      && forall i :: 0 < i < |r.entries| ==>
           r.entries[i].novo == BuildNovoDependente(Dependents(f.rows)[i - 1], f.titular, m)
  {
    Seqs.FilterCount(IsDependentRow, f.rows);
  }

  /** A row is sent as a dependent exactly when it is not a titular row. */
  lemma DependentsAreNonTitularRows(rows: seq<Row>, x: Row)
    requires x in rows
    ensures x in Dependents(rows) <==> !IsTitularRow(x)
  {
    if !IsTitularRow(x) {
      Seqs.FilterKeeps(IsDependentRow, rows, x);
    }
  }

  /** Without a positive answer or without a contract number, the family ends
      after its AssociadoPJ send. */
  lemma NoDependentsWithoutMatricula(f: Family, ceps: map<string, Row>, env: Env, p: Partner)
    requires TitularJaCadastrado(VidaSent(f, ceps, env, p).data) != Ok(true) || !Truthy(FamilyMatricula(f, env, p))
    ensures |DispatchFamily(f, ceps, env, p).entries| == 1
  {
  }

  // ------------------------------------------------------------ the run

  /** The loop over families: each family's entries and audit rows follow the
      previous family's; an error thrown inside a family ends the run. */
  function DispatchFamilies(fs: seq<Family>, ceps: map<string, Row>, env: Env, p: Partner): (r: Run)
    ensures |r.entries| >= |fs| || r.error.Some?
  {
    if fs == [] then Run([], [], None)
    else
      var s := DispatchFamily(fs[0], ceps, env, p);
      if s.error.Some? then s
      else
        var rest := DispatchFamilies(fs[1..], ceps, env, p);
        Run(s.entries + rest.entries, s.audit + rest.audit, rest.error)
  }

  /** `gerarJsonBeneficiarios`: nothing happens for an empty SELECT; a missing
      APIV3 token stops the run before any family. */
  function DispatchRun(rows: seq<Row>, titulares: map<JsVal, Row>, ceps: map<string, Row>, env: Env, p: Partner)
    : (r: Run)
    ensures rows == [] ==> r == Run([], [], None)
    ensures rows != [] && env.apiv3Token == "" ==> r.entries == [] && r.audit == [] && r.error == Some(TokenMissing)
  {
    if rows == [] then Run([], [], None)
    else if env.apiv3Token == "" then Run([], [], Some(TokenMissing))
    else DispatchFamilies(Families(GroupRows(rows), titulares), ceps, env, p)
  }

  /** The log file: written only when the run ended normally with at least
      one payload. */
  function LogFile(r: Run): (file: Option<seq<Entry>>)
    ensures file.Some? <==> r.error.None? && r.entries != []
  {
    if r.error.None? && r.entries != [] then Some(r.entries) else None
  }

  /** Entry `j` has an AssociadoPJ entry of the same family before it. */
  ghost predicate PjBefore(es: seq<Entry>, j: int)
    requires 0 <= j < |es|
  {
    exists i :: 0 <= i < j && es[i].AssociadoPJ? && es[i].titularId == es[j].titularId
  }

  /** Every NovoDependente entry comes after its family's AssociadoPJ entry. */
  ghost predicate PjFirst(es: seq<Entry>) {
    forall j :: 0 <= j < |es| && es[j].NovoDependente? ==> PjBefore(es, j)
  }

  /** The entries of one family: its AssociadoPJ entry, then NovoDependente
      entries of the same family. */
  ghost predicate FamilyShaped(es: seq<Entry>) {
    && |es| >= 1 && es[0].AssociadoPJ?
    && forall i :: 0 < i < |es| ==> es[i].NovoDependente? && es[i].titularId == es[0].titularId
  }

  /** A family's entries followed by well-ordered entries are well ordered. */
  lemma PjFirstAppend(a: seq<Entry>, b: seq<Entry>)
    requires FamilyShaped(a) && PjFirst(b)
    ensures PjFirst(a + b)
  {
    var es := a + b;
    forall j | 0 <= j < |es| && es[j].NovoDependente? ensures PjBefore(es, j) {
      if j < |a| {
        assert es[0] == a[0] && es[j] == a[j];
      } else {
        var j' := j - |a|;
        assert b[j'] == es[j];
        assert PjBefore(b, j');
        var i' :| 0 <= i' < j' && b[i'].AssociadoPJ? && b[i'].titularId == b[j'].titularId;
        assert es[i' + |a|] == b[i'];
      }
    }
  }

  /** Across the whole run, every NovoDependente entry comes after the
      AssociadoPJ entry of its family, and when the run ends normally there is
      one audit row per entry. */
  lemma {:induction false} DispatchFamiliesOrder(fs: seq<Family>, ceps: map<string, Row>, env: Env, p: Partner)
    ensures var r := DispatchFamilies(fs, ceps, env, p);
      PjFirst(r.entries) && (r.error.None? ==> |r.audit| == |r.entries|)
  {
    if fs != [] {
      var s := DispatchFamily(fs[0], ceps, env, p);
      FamilyIsShaped(fs[0], ceps, env, p);
      if s.error.None? {
        DispatchFamiliesOrder(fs[1..], ceps, env, p);
        var rest := DispatchFamilies(fs[1..], ceps, env, p);
        PjFirstAppend(s.entries, rest.entries);
        DispatchFamiliesCons(fs, ceps, env, p);
      } else {
        ShapedIsPjFirst(s.entries);
      }
    }
  }

  /** A run that gets past the first family is that family's entries and
      audit rows followed by the rest's. */
  lemma DispatchFamiliesCons(fs: seq<Family>, ceps: map<string, Row>, env: Env, p: Partner)
    requires fs != [] && DispatchFamily(fs[0], ceps, env, p).error.None?
    ensures var s := DispatchFamily(fs[0], ceps, env, p);
      var rest := DispatchFamilies(fs[1..], ceps, env, p);
      DispatchFamilies(fs, ceps, env, p) == Run(s.entries + rest.entries, s.audit + rest.audit, rest.error)
  {
  }

  /** One family's entries on their own are well ordered. */
  lemma ShapedIsPjFirst(a: seq<Entry>)
    requires FamilyShaped(a)
    ensures PjFirst(a)
  {
    PjFirstAppend(a, []);
    assert a + [] == a;
  }

  /** One family's entries have the family shape. */
  lemma FamilyIsShaped(f: Family, ceps: map<string, Row>, env: Env, p: Partner)
    ensures var r := DispatchFamily(f, ceps, env, p);
      FamilyShaped(r.entries) && (r.error.None? ==> |r.audit| == |r.entries|)
  {
    DispatchFamilyShape(f, ceps, env, p);
  }

  /** The ordering and audit guarantees hold for a whole run. */
  lemma DispatchRunOrder(rows: seq<Row>, titulares: map<JsVal, Row>, ceps: map<string, Row>, env: Env, p: Partner)
    ensures var r := DispatchRun(rows, titulares, ceps, env, p);
      PjFirst(r.entries) && (r.error.None? ==> |r.audit| == |r.entries|)
  {
    if rows != [] && env.apiv3Token != "" {
      DispatchFamiliesOrder(Families(GroupRows(rows), titulares), ceps, env, p);
    }
  }
}
