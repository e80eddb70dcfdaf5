/** src/controllers/BeneficiarioController.js: `incluirVariosBeneficiarios`,
    which runs `incluirBeneficiario` over the listed beneficiaries, records
    one result entry each and logs one message each. The inclusion of one
    beneficiary is an input: its reply body, or the message it throws. */
module BeneficiarioBatch {
  import opened Wrappers
  import opened JsValues
  import opened BeneficiarioController

  // ------------------------------------------------------------ messages

  const NoId := "ID do benefici\U{00E1}rio n\U{00E3}o encontrado."
  const Inserted := "Benefici\U{00E1}rio inserido com sucesso. "
  const AlreadyActive := "Titular j\U{00E1} cadastrado e ativo no contrato. "
  const ErrorPrefix := "Erro ao incluir benefici\U{00E1}rio: "
  const NoName := "Nome n\U{00E3}o dispon\U{00ED}vel"
  const NoIdValue := "ID n\U{00E3}o dispon\U{00ED}vel"

  // ------------------------------------------------------------ the batch

  /** One element of `inclusaoResultados`. */
  datatype Entry = Success(beneficiario: JsVal, resposta: JsVal) | Failure(beneficiario: JsVal, error: string)

  /** A row written by `LogService.saveLog`, without its JSON column: the
      calls in the try branch pass `null`, which is stored as the string
      "null", and the catch's three-argument call leaves it `undefined`.
      A failing insert is swallowed by `saveLog`. */
  datatype LogLine = LogLine(nome: JsVal, id: JsVal, mensagem: JsVal)

  datatype Batch = Batch(entries: seq<Entry>, logs: seq<LogLine>)

  /** `v == ''` with JavaScript's loose equality: strings compare as
      strings, numbers and booleans through `Number('')`, which is 0, and
      arrays through their string form. */
  predicate LooseEqualsEmpty(v: JsVal) {
    match v
    case Str(s) => s == ""
    case Num(n) => n == 0
    case Bool(b) => !b
    case Arr(_) => ToStr(v) == ""
    case _ => false
  }

  /** The message logged for an answered inclusion: the partner's
      `resultMessage`, whichever of the two branches logs it, unless it
      loosely equals '', in which case the success text. */
  function LogMessage(resultMessage: JsVal): (m: JsVal)
    ensures !LooseEqualsEmpty(resultMessage) ==> m == resultMessage
    ensures LooseEqualsEmpty(resultMessage) ==> m == Str(Inserted)
  {
    if resultMessage == Str(AlreadyActive) then resultMessage
    else if !LooseEqualsEmpty(resultMessage) then resultMessage
    else Str(Inserted)
  }

  /** The log line of the `catch`: the name and the id, or their
      placeholders, and the error's message after the fixed prefix. */
  function CaughtLine(beneficiario: JsVal, message: string): (l: LogLine)
    ensures l.mensagem == Str(ErrorPrefix + message)
    ensures Truthy(l.nome) && Truthy(l.id)
    ensures Truthy(OptProp(beneficiario, "NOME")) ==> l.nome == OptProp(beneficiario, "NOME")
    ensures Truthy(OptProp(beneficiario, "NNUMEUSUA")) ==> l.id == OptProp(beneficiario, "NNUMEUSUA")
  {
    LogLine(Or(OptProp(beneficiario, "NOME"), Str(NoName)),
            Or(OptProp(beneficiario, "NNUMEUSUA"), Str(NoIdValue)),
            Str(ErrorPrefix + message))
  }

  /** The `catch` of one beneficiary: a log with fallbacks for the name and
      the id, and an error entry. */
  function Caught(b: Batch, beneficiario: JsVal, message: string): (r: Batch)
    ensures r.entries == b.entries + [Failure(beneficiario, message)]
    ensures r.logs == b.logs + [LogLine(Or(OptProp(beneficiario, "NOME"), Str(NoName)),
                                        Or(OptProp(beneficiario, "NNUMEUSUA"), Str(NoIdValue)),
                                        Str(ErrorPrefix + message))]
  {
    Batch(b.entries + [Failure(beneficiario, message)], b.logs + [CaughtLine(beneficiario, message)])
  }

  /** One turn of the loop as written. After the success entry is pushed,
      `resposta.resultMessage` throws on a `null`/`undefined` reply, and the
      `catch` pushes an error entry for the same beneficiary. */
  function StepAsWritten(b: Batch, beneficiario: JsVal, incluir: JsVal -> Result<JsVal>): (r: Batch)
    ensures |r.entries| >= |b.entries| + 1 && r.entries[..|b.entries|] == b.entries
    ensures r.logs == b.logs + [LogLineAsWritten(beneficiario, incluir)]
    ensures !NullReply(beneficiario, incluir) ==> r.logs == b.logs + [LogLineFor(beneficiario, incluir)]
  {
    if Nullish(beneficiario) then Caught(b, beneficiario, ReadError(beneficiario, "NNUMEUSUA"))
    else
      var id := Prop(beneficiario, "NNUMEUSUA");
      if !Truthy(id) then Caught(b, beneficiario, NoId)
      else
        match incluir(id)
        case Err(m) => Caught(b, beneficiario, m)
        case Ok(resposta) =>
          var b1 := b.(entries := b.entries + [Success(beneficiario, resposta)]);
          if Nullish(resposta) then Caught(b1, beneficiario, ReadError(resposta, "resultMessage"))
          else b1.(logs := b.logs + [LogLine(Prop(beneficiario, "NOME"), id, LogMessage(Prop(resposta, "resultMessage")))])
  }

  /** One turn of the loop, corrected: the reply's message is read with
      `?.`, so an answered inclusion is one success entry and one log. */
  function Step(b: Batch, beneficiario: JsVal, incluir: JsVal -> Result<JsVal>): (r: Batch)
    ensures r.entries == b.entries + [EntryFor(beneficiario, incluir)]
    ensures r.logs == b.logs + [LogLineFor(beneficiario, incluir)]
  {
    if Nullish(beneficiario) then Caught(b, beneficiario, ReadError(beneficiario, "NNUMEUSUA"))
    else
      var id := Prop(beneficiario, "NNUMEUSUA");
      if !Truthy(id) then Caught(b, beneficiario, NoId)
      else
        match incluir(id)
        case Err(m) => Caught(b, beneficiario, m)
        case Ok(resposta) =>
          Batch(b.entries + [Success(beneficiario, resposta)],
                b.logs + [LogLine(Prop(beneficiario, "NOME"), id, LogMessage(OptProp(resposta, "resultMessage")))])
  }

  /** The result entry one beneficiary should get, stated on its own:
      success exactly when it has an id and its inclusion answered. */
  function EntryFor(beneficiario: JsVal, incluir: JsVal -> Result<JsVal>): (e: Entry)
    ensures e.beneficiario == beneficiario
    ensures e.Success? <==>
      !Nullish(beneficiario) && Truthy(Prop(beneficiario, "NNUMEUSUA")) && incluir(Prop(beneficiario, "NNUMEUSUA")).Ok?
  {
    if Nullish(beneficiario) then Failure(beneficiario, ReadError(beneficiario, "NNUMEUSUA"))
    else
      var id := Prop(beneficiario, "NNUMEUSUA");
      if !Truthy(id) then Failure(beneficiario, NoId)
      else
        match incluir(id)
        case Err(m) => Failure(beneficiario, m)
        case Ok(resposta) => Success(beneficiario, resposta)
  }

  /** The log line one beneficiary should get, stated on its own: the
      `catch`'s line with the error of its entry when that entry is a
      failure; otherwise its name and id with `LogMessage` of the reply's
      `resultMessage`, which is the partner's message unless it loosely
      equals ''. */
  function LogLineFor(beneficiario: JsVal, incluir: JsVal -> Result<JsVal>): (l: LogLine)
    ensures EntryFor(beneficiario, incluir).Failure? ==>
      l == CaughtLine(beneficiario, EntryFor(beneficiario, incluir).error)
    ensures EntryFor(beneficiario, incluir).Success? ==>
      var m := OptProp(EntryFor(beneficiario, incluir).resposta, "resultMessage");
      && l.nome == Prop(beneficiario, "NOME") && l.id == Prop(beneficiario, "NNUMEUSUA")
      && (!LooseEqualsEmpty(m) ==> l.mensagem == m)
      && (LooseEqualsEmpty(m) ==> l.mensagem == Str(Inserted))
  {
    match EntryFor(beneficiario, incluir)
    case Failure(_, message) => CaughtLine(beneficiario, message)
    case Success(_, resposta) =>
      LogLine(Prop(beneficiario, "NOME"), Prop(beneficiario, "NNUMEUSUA"), LogMessage(OptProp(resposta, "resultMessage")))
  }

  /** The log line the loop as written gives one beneficiary: after a
      missing body, the `catch`'s line for the error of reading
      `resultMessage` from it; otherwise the line it should get. */
  function LogLineAsWritten(beneficiario: JsVal, incluir: JsVal -> Result<JsVal>): (l: LogLine)
    ensures !NullReply(beneficiario, incluir) ==> l == LogLineFor(beneficiario, incluir)
    ensures NullReply(beneficiario, incluir) ==>
      l == CaughtLine(beneficiario, ReadError(incluir(Prop(beneficiario, "NNUMEUSUA")).value, "resultMessage"))
  {
    if NullReply(beneficiario, incluir) then
      CaughtLine(beneficiario, ReadError(incluir(Prop(beneficiario, "NNUMEUSUA")).value, "resultMessage"))
    else LogLineFor(beneficiario, incluir)
  }

  /** `beneficiarios`: the list's rows when `data` is an array, else none. */
  function Listed(lista: JsVal): (bs: seq<JsVal>)
    ensures IsArray(Prop(lista, "data")) ==> bs == Prop(lista, "data").items
    ensures !IsArray(Prop(lista, "data")) ==> bs == []
  {
    var data := Prop(lista, "data");
    if IsArray(data) then data.items else []
  }

  /** The loop as written, over the beneficiaries in order. */
  function RunAsWritten(bs: seq<JsVal>, incluir: JsVal -> Result<JsVal>): Batch {
    if bs == [] then Batch([], [])
    else StepAsWritten(RunAsWritten(bs[..|bs| - 1], incluir), bs[|bs| - 1], incluir)
  }

  /** The loop, corrected. */
  function Run(bs: seq<JsVal>, incluir: JsVal -> Result<JsVal>): Batch {
    if bs == [] then Batch([], [])
    else Step(Run(bs[..|bs| - 1], incluir), bs[|bs| - 1], incluir)
  }

  /** A beneficiary with an id whose inclusion answers with a missing body:
      the case the loop as written records twice. */
  predicate NullReply(beneficiario: JsVal, incluir: JsVal -> Result<JsVal>) {
    && !Nullish(beneficiario) && Truthy(Prop(beneficiario, "NNUMEUSUA"))
    && incluir(Prop(beneficiario, "NNUMEUSUA")).Ok?
    && Nullish(incluir(Prop(beneficiario, "NNUMEUSUA")).value)
  }

  /** The entries the loop as written gives one beneficiary, stated on its
      own: its entry, then, after a missing body, the error of reading
      `resultMessage` from it. */
  function EntriesAsWritten(beneficiario: JsVal, incluir: JsVal -> Result<JsVal>): (es: seq<Entry>)
    ensures 1 <= |es| <= 2 && es[0] == EntryFor(beneficiario, incluir)
    ensures |es| == 2 <==> NullReply(beneficiario, incluir)
  {
    if NullReply(beneficiario, incluir) then
      var resposta := incluir(Prop(beneficiario, "NNUMEUSUA")).value;
      [EntryFor(beneficiario, incluir), Failure(beneficiario, ReadError(resposta, "resultMessage"))]
    else [EntryFor(beneficiario, incluir)]
  }

  /** The entries of a list of beneficiaries, one group per beneficiary. */
  function AllEntriesAsWritten(bs: seq<JsVal>, incluir: JsVal -> Result<JsVal>): seq<Entry> {
    if bs == [] then [] else AllEntriesAsWritten(bs[..|bs| - 1], incluir) + EntriesAsWritten(bs[|bs| - 1], incluir)
  }

  /** One turn as written appends the beneficiary's entries and one log. */
  lemma StepAsWrittenAppends(b: Batch, beneficiario: JsVal, incluir: JsVal -> Result<JsVal>)
    ensures StepAsWritten(b, beneficiario, incluir).entries == b.entries + EntriesAsWritten(beneficiario, incluir)
    ensures |StepAsWritten(b, beneficiario, incluir).logs| == |b.logs| + 1
  {
  }

  /** The loop as written: one log line per beneficiary, and per
      beneficiary its entry, followed by a second one after a missing body. */
  lemma {:induction false} RunAsWrittenEntries(bs: seq<JsVal>, incluir: JsVal -> Result<JsVal>)
    ensures RunAsWritten(bs, incluir).entries == AllEntriesAsWritten(bs, incluir)
    ensures |RunAsWritten(bs, incluir).logs| == |bs|
  {
    if bs != [] {
      RunAsWrittenEntries(bs[..|bs| - 1], incluir);
      StepAsWrittenAppends(RunAsWritten(bs[..|bs| - 1], incluir), bs[|bs| - 1], incluir);
    }
  }

  /** Without a missing body in the list, the loop as written is the
      corrected loop. */
  lemma {:induction false} RunsAgreeWithoutNullReply(bs: seq<JsVal>, incluir: JsVal -> Result<JsVal>)
    ensures (forall i :: 0 <= i < |bs| ==> !NullReply(bs[i], incluir)) ==> RunAsWritten(bs, incluir) == Run(bs, incluir)
  {
    if bs != [] && forall i :: 0 <= i < |bs| ==> !NullReply(bs[i], incluir) {
      var init := bs[..|bs| - 1];
      assert forall i :: 0 <= i < |init| ==> init[i] == bs[i];
      RunsAgreeWithoutNullReply(init, incluir);
      StepAgreesOtherwise(Run(init, incluir), bs[|bs| - 1], incluir);
    }
  }

  /** The loop as written: log line i is the one beneficiary i gets as
      written, which is the line it should get unless its inclusion
      answered with a missing body. */
  lemma {:induction false} RunAsWrittenLogs(bs: seq<JsVal>, incluir: JsVal -> Result<JsVal>)
    ensures |RunAsWritten(bs, incluir).logs| == |bs|
    ensures forall i :: 0 <= i < |bs| ==> RunAsWritten(bs, incluir).logs[i] == LogLineAsWritten(bs[i], incluir)
  {
    if bs != [] {
      var init := bs[..|bs| - 1];
      RunAsWrittenLogs(init, incluir);
      var r := RunAsWritten(bs, incluir);
      assert r.logs == RunAsWritten(init, incluir).logs + [LogLineAsWritten(bs[|bs| - 1], incluir)];
      forall i | 0 <= i < |bs|
        ensures r.logs[i] == LogLineAsWritten(bs[i], incluir)
      {
        if i < |bs| - 1 {
          assert bs[i] == init[i];
        }
      }
    }
  }

  /** `incluirVariosBeneficiarios`: status 200 with the entries (the log
      rows are its side effect), as written: one log line per listed
      beneficiary, and its entries in list order, a missing body giving a
      success and then an error. Without a missing body, each beneficiary
      has exactly its own entry. */
  function IncluirVarios(lista: JsVal, incluir: JsVal -> Result<JsVal>): (r: Batch)
    ensures |r.logs| == |Listed(lista)|
    ensures r.entries == AllEntriesAsWritten(Listed(lista), incluir)
    ensures forall i :: 0 <= i < |Listed(lista)| ==> r.logs[i] == LogLineAsWritten(Listed(lista)[i], incluir)
    ensures forall i :: 0 <= i < |Listed(lista)| && !NullReply(Listed(lista)[i], incluir) ==>
      r.logs[i] == LogLineFor(Listed(lista)[i], incluir)
    ensures (forall i :: 0 <= i < |Listed(lista)| ==> !NullReply(Listed(lista)[i], incluir)) ==>
      && |r.entries| == |Listed(lista)|
      && forall i :: 0 <= i < |r.entries| ==> r.entries[i] == EntryFor(Listed(lista)[i], incluir)
  {
    RunAsWrittenEntries(Listed(lista), incluir);
    RunAsWrittenLogs(Listed(lista), incluir);
    RunsAgreeWithoutNullReply(Listed(lista), incluir);
    RunOnePerBeneficiary(Listed(lista), incluir);
    RunAsWritten(Listed(lista), incluir)
  }

  /** Corrected: every listed beneficiary gets exactly one result entry and
      one log line, in list order, success exactly when its inclusion
      answered. */
  lemma {:induction false} RunOnePerBeneficiary(bs: seq<JsVal>, incluir: JsVal -> Result<JsVal>)
    ensures |Run(bs, incluir).entries| == |Run(bs, incluir).logs| == |bs|
    ensures forall i :: 0 <= i < |bs| ==> Run(bs, incluir).entries[i] == EntryFor(bs[i], incluir)
    ensures forall i :: 0 <= i < |bs| ==> Run(bs, incluir).logs[i] == LogLineFor(bs[i], incluir)
  {
    if bs != [] {
      var init := bs[..|bs| - 1];
      RunOnePerBeneficiary(init, incluir);
      var prev := Run(init, incluir);
      var r := Run(bs, incluir);
      assert r.entries == prev.entries + [EntryFor(bs[|bs| - 1], incluir)];
      assert r.logs == prev.logs + [LogLineFor(bs[|bs| - 1], incluir)];
      forall i | 0 <= i < |bs|
        ensures r.entries[i] == EntryFor(bs[i], incluir) && r.logs[i] == LogLineFor(bs[i], incluir)
      {
        if i < |bs| - 1 {
          assert bs[i] == init[i];
        }
      }
    }
  }

  /** Finding, as written: one beneficiary whose inclusion answers with a
      `null` body gets two result entries, a success and an error; its one
      log line is the error's. */
  lemma AsWrittenNullReplyCountedTwice(beneficiario: JsVal, incluir: JsVal -> Result<JsVal>)
    requires !Nullish(beneficiario) && Truthy(Prop(beneficiario, "NNUMEUSUA"))
    requires incluir(Prop(beneficiario, "NNUMEUSUA")) == Ok(Null)
    ensures var r := RunAsWritten([beneficiario], incluir);
      && r.entries == [Success(beneficiario, Null), Failure(beneficiario, ReadError(Null, "resultMessage"))]
      && r.logs == [LogLine(Or(Prop(beneficiario, "NOME"), Str(NoName)), Prop(beneficiario, "NNUMEUSUA"),
                            Str(ErrorPrefix + ReadError(Null, "resultMessage")))]
  {
    assert [beneficiario][..0] == [];
  }

  /** As written and corrected agree on every beneficiary whose inclusion
      does not answer with a missing body. */
  lemma StepAgreesOtherwise(b: Batch, beneficiario: JsVal, incluir: JsVal -> Result<JsVal>)
    requires !NullReply(beneficiario, incluir)
    ensures StepAsWritten(b, beneficiario, incluir) == Step(b, beneficiario, incluir)
  {
  }
}
