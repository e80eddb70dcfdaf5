/** The normalisation both audit tables apply to the columns they store
    (`gravarOdontoBenef` in GeraJsonBeneficiarios_bkp.js and
    `gravarResultadoCheck` in VerificaCpfOdonto.js). */
module AuditLog {
  import opened Text
  import opened JsValues

  /** Width of the `msg_retorno` column. */
  const MessageLimit := 4000

  /** `(msgRetorno || '').toString().substring(0, 4000)`. */
  function Message(v: JsVal): (r: string)
    ensures |r| <= MessageLimit
  {
    Take(OrEmpty(v), MessageLimit)
  }

  /** The stored message is the start of the message the call produced, cut
      only when it is longer than the column. */
  lemma MessageIsPrefix(v: JsVal)
    ensures Message(v) <= OrEmpty(v)
    ensures |OrEmpty(v)| <= MessageLimit ==> Message(v) == OrEmpty(v)
    ensures |OrEmpty(v)| > MessageLimit ==> |Message(v)| == MessageLimit
  {
    TakeIsPrefix(OrEmpty(v), MessageLimit);
  }

  /** `httpStatus ? Number(httpStatus) : null`, as written. The callers pass
      either a response status or the string 'no-response'. */
  function StatusColumnAsWritten(v: JsVal): (r: JsVal)
    ensures !Truthy(v) ==> r == Null
    ensures Truthy(v) ==> r == ToNumber(v)
  {
    if Truthy(v) then ToNumber(v) else Null
  }

  /** The column meant to hold a number or null receives `NaN` for every
      request that got no response. */
  lemma StatusColumnAsWrittenStoresNaN()
    ensures StatusColumnAsWritten(Str("no-response")) == NaN
  {
    assert !AllDigits("no-response") by { assert !IsDigit("no-response"[0]); }
    var t := Trim("no-response");
    TrimmedIsFixed("no-response");
    assert t == "no-response";
  }

  /** What the written column holds: a number, null, or `NaN` exactly for a
      truthy status that does not read as a number; the intended column is
      the same with `null` in place of that `NaN`. */
  lemma StatusColumnAsWrittenHolds(v: JsVal)
    ensures var c := StatusColumnAsWritten(v);
      && (c.Num? || c.Null? || c.NaN?)
      && (c.NaN? <==> Truthy(v) && ToNumber(v).NaN?)
      && StatusColumn(v) == if c.NaN? then Null else c
  {
  }

  /** The status column as intended: the numeric status, or `null` when there
      is none (no status, or a marker such as 'no-response'). */
  function StatusColumn(v: JsVal): (r: JsVal)
    ensures r.Num? || r.Null?
  {
    var n := StatusColumnAsWritten(v);
    if n.Num? then n else Null
  }

  /** The intended column differs from the written one only where that one
      stores `NaN`, and a real status always passes through. */
  lemma StatusColumnAgrees(v: JsVal)
    ensures StatusColumnAsWritten(v) != StatusColumn(v) ==> StatusColumnAsWritten(v) == NaN
    ensures StatusColumn(Str("no-response")) == Null
    ensures v.Num? && v.n != 0 ==> StatusColumn(v) == v
  {
    StatusColumnAsWrittenStoresNaN();
  }
}
