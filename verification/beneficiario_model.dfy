/** src/models/BeneficiarioModel.js: the code tables the SQL computes
    (`CASE`/`DECODE`/`NVL` columns), the two variants of the beneficiary
    query, and the shape of the answers the model's methods hand back. The
    database itself is an input: what `db.raw` settles with. */
module BeneficiarioModel {
  import opened Wrappers
  import opened JsValues

  // ------------------------------------------------------------ code tables

  /** `i` is the first `WHEN` whose key equals the subject. */
  predicate FirstKeyAt(whens: seq<(string, string)>, subject: Option<string>, i: int) {
    && 0 <= i < |whens| && subject == Some(whens[i].0)
    && forall j :: 0 <= j < i ==> subject != Some(whens[j].0)
  }

  /** A simple SQL `CASE subject WHEN k THEN v ... ELSE d END`, and Oracle's
      `DECODE(subject, k, v, ..., d)`: the value paired with the first key
      equal to the subject. A NULL subject (`None`) equals no key, and a
      `CASE` without `ELSE` yields NULL. */
  function Case(subject: Option<string>, whens: seq<(string, string)>, otherwise: Option<string>): (r: Option<string>)
    ensures r == otherwise || exists i :: 0 <= i < |whens| && r == Some(whens[i].1)
    ensures forall i :: FirstKeyAt(whens, subject, i) ==> r == Some(whens[i].1)
    ensures (forall i :: 0 <= i < |whens| ==> subject != Some(whens[i].0)) ==> r == otherwise
  {
    if whens == [] then otherwise
    else if subject == Some(whens[0].0) then Some(whens[0].1)
    else
      var rest := Case(subject, whens[1..], otherwise);
      assert forall i :: FirstKeyAt(whens, subject, i) ==> i > 0 && FirstKeyAt(whens[1..], subject, i - 1);
      assert forall i :: 0 <= i < |whens[1..]| && rest == Some(whens[1..][i].1) ==> rest == Some(whens[i + 1].1);
      rest
  }

  /** The `cgrauusua` branch of `tipo_usuario` for a dependent. */
  const DegreeCodes: seq<(string, string)> :=
    [("F", "4"), ("E", "3"), ("J", "3"), ("H", "6"), ("P", "8"), ("M", "8"), ("D", "10"), ("O", "10")]

  /** Every value `tipo_usuario` can take. */
  const UserTypes: set<string> := {"1", "3", "4", "6", "8", "10"}

  /** The `tipo_usuario` column from `ctipousua` and `cgrauusua` (NULL is
      `None`): a titular is '1', a dependent's code follows the degree of
      kinship, and everything else is '10'. */
  function TipoUsuario(ctipousua: Option<string>, cgrauusua: Option<string>): (r: string)
    ensures r in UserTypes
    ensures r == "1" <==> ctipousua == Some("T")
    ensures ctipousua != Some("T") && ctipousua != Some("D") ==> r == "10"
  {
    if ctipousua == Some("T") then "1"
    else if ctipousua == Some("D") then Case(cgrauusua, DegreeCodes, Some("10")).GetOr("10")
    else "10"
  }

  /** The degree-of-kinship table written out case by case: son 4, wife or
      spouse 3, stepchild 6, father or mother 8, anything else 10. */
  function DegreeCode(g: Option<string>): string {
    if g == Some("F") then "4"
    else if g == Some("E") || g == Some("J") then "3"
    else if g == Some("H") then "6"
    else if g == Some("P") || g == Some("M") then "8"
    else "10"
  }

  /** A dependent's `tipo_usuario` is the degree table's entry. */
  lemma TipoUsuarioOfDependent(g: Option<string>)
    ensures TipoUsuario(Some("D"), g) == DegreeCode(g)
  {
    if g.Some? && g.value in {"F", "E", "J", "H", "P", "M", "D", "O"} {
      DegreeListed(g.value);
    } else {
      DegreeUnlisted(g);
    }
  }

  lemma DegreeListed(k: string)
    requires k in {"F", "E", "J", "H", "P", "M", "D", "O"}
    ensures Case(Some(k), DegreeCodes, Some("10")) == Some(DegreeCode(Some(k)))
  {
    var g := Some(k);
    if k == "F" { assert FirstKeyAt(DegreeCodes, g, 0); }
    else if k == "E" { assert FirstKeyAt(DegreeCodes, g, 1); }
    else if k == "J" { assert FirstKeyAt(DegreeCodes, g, 2); }
    else if k == "H" { assert FirstKeyAt(DegreeCodes, g, 3); }
    else if k == "P" { assert FirstKeyAt(DegreeCodes, g, 4); }
    else if k == "M" { assert FirstKeyAt(DegreeCodes, g, 5); }
    else if k == "D" { assert FirstKeyAt(DegreeCodes, g, 6); }
    else { assert FirstKeyAt(DegreeCodes, g, 7); }
  }

  lemma DegreeUnlisted(g: Option<string>)
    requires !(g.Some? && g.value in {"F", "E", "J", "H", "P", "M", "D", "O"})
    ensures Case(g, DegreeCodes, Some("10")) == Some("10")
  {
    forall i | 0 <= i < |DegreeCodes|
      ensures g != Some(DegreeCodes[i].0)
    {
      assert DegreeCodes[i].0 in {"F", "E", "J", "H", "P", "M", "D", "O"};
    }
  }

  /** `DECODE(csexousua, 'M', '1', '0')`. */
  function Sexo(csexousua: Option<string>): (r: string)
    ensures r == "1" <==> csexousua == Some("M")
    ensures r != "1" ==> r == "0"
  {
    Case(csexousua, [("M", "1")], Some("0")).GetOr("0")
  }

  /** `DECODE(cnatutitu, '3', '27552', '27552')`: both arms agree, so the
      contract code never depends on the column. */
  function NaturezaContrato(cnatutitu: Option<string>): (r: string)
    ensures r == "27552"
  {
    Case(cnatutitu, [("3", "27552")], Some("27552")).GetOr("27552")
  }

  /** `NVL(corrgusua, 'SSP')`: the issuing body, 'SSP' when NULL. */
  function Orgao(corrgusua: Option<string>): (r: string)
    ensures corrgusua.Some? ==> r == corrgusua.value
    ensures corrgusua.None? ==> r == "SSP"
  {
    corrgusua.GetOr("SSP")
  }

  /** The phone branch of the contact query: mobile 8, home and work 1,
      WhatsApp 10; the `CASE` has no `ELSE`. */
  const PhoneCodes: seq<(string, string)> := [("E", "8"), ("R", "1"), ("C", "1"), ("W", "10")]

  /** The e-mail branch selects the constant '50'. */
  const EmailCode := "50"

  /** `tipo_contato` of a phone row: the code tells the kind of phone, an
      unknown kind gives NULL, and no phone code is the e-mail code. */
  function PhoneType(ctipofonp: Option<string>): (r: Option<string>)
    ensures r.Some? <==> ctipofonp in {Some("E"), Some("R"), Some("C"), Some("W")}
    ensures ctipofonp == Some("E") ==> r == Some("8")
    ensures ctipofonp == Some("R") || ctipofonp == Some("C") ==> r == Some("1")
    ensures ctipofonp == Some("W") ==> r == Some("10")
    ensures r != Some(EmailCode)
  {
    PhoneCases(ctipofonp);
    Case(ctipofonp, PhoneCodes, None)
  }

  lemma PhoneCases(c: Option<string>)
    ensures var r := Case(c, PhoneCodes, None);
      && (c == Some("E") ==> r == Some("8"))
      && (c == Some("R") ==> r == Some("1"))
      && (c == Some("C") ==> r == Some("1"))
      && (c == Some("W") ==> r == Some("10"))
      && (c !in {Some("E"), Some("R"), Some("C"), Some("W")} ==> r == None)
  {
    if c == Some("E") { assert FirstKeyAt(PhoneCodes, c, 0); }
    else if c == Some("R") { assert FirstKeyAt(PhoneCodes, c, 1); }
    else if c == Some("C") { assert FirstKeyAt(PhoneCodes, c, 2); }
    else if c == Some("W") { assert FirstKeyAt(PhoneCodes, c, 3); }
    else { assert forall i :: 0 <= i < |PhoneCodes| ==> c != Some(PhoneCodes[i].0); }
  }

  // ------------------------------------------------------------ the query

  /** A term of the `WHERE` clause: a qualified column, the bind placeholder
      `?`, or a number. */
  datatype Term = Column(table: string, name: string) | Param | Number(n: int)

  datatype Condition =
    | Equals(left: Term, right: Term)
    | OuterJoin(left: Term, right: Term)
    | IsNull(term: Term)
    | InList(term: Term, values: seq<int>)

  /** The parts of the query the two variants differ in: the `FROM` list and
      the `WHERE` conjuncts. The select list is the same for both. */
  datatype Query = Query(from: seq<string>, where: seq<Condition>)

  const TxTable := "hsstxusu"

  const BaseTables := ["hssusua", "hsstitu", "hssempr", "hsspess", "hssendp"]

  const ByUser := Equals(Column("hssusua", "nnumeusua"), Param)

  const BaseWhere := [
    ByUser,
    Equals(Column("hssusua", "nnumetitu"), Column("hsstitu", "nnumetitu")),
    Equals(Column("hsstitu", "nnumeempr"), Column("hssempr", "nnumeempr")),
    Equals(Column("hssusua", "nnumepess"), Column("hsspess", "nnumepess")),
    OuterJoin(Column("hsspess", "nnumepess"), Column("hssendp", "nnumepess"))
  ]

  /** The monthly-fee filters: not cancelled, one of four fee tables, and
      joined to the user. */
  const TxFilters := [
    IsNull(Column(TxTable, "dcanctxusu")),
    InList(Column(TxTable, "nnumetxmen"), [141287944, 155616900, 163198861, 168980581]),
    Equals(Column("hssusua", "nnumeusua"), Column(TxTable, "nnumeusua"))
  ]

  predicate TermMentions(t: Term, table: string) {
    t.Column? && t.table == table
  }

  predicate Mentions(c: Condition, table: string) {
    match c
    case Equals(l, r) => TermMentions(l, table) || TermMentions(r, table)
    case OuterJoin(l, r) => TermMentions(l, table) || TermMentions(r, table)
    case IsNull(t) => TermMentions(t, table)
    case InList(t, _) => TermMentions(t, table)
  }

  function TermParams(t: Term): nat {
    if t.Param? then 1 else 0
  }

  function ConditionParams(c: Condition): nat {
    match c
    case Equals(l, r) => TermParams(l) + TermParams(r)
    case OuterJoin(l, r) => TermParams(l) + TermParams(r)
    case IsNull(t) => TermParams(t)
    case InList(t, _) => TermParams(t)
  }

  /** How many `?` placeholders, so how many bind values, the conditions need. */
  function Params(cs: seq<Condition>): nat {
    if cs == [] then 0 else ConditionParams(cs[0]) + Params(cs[1..])
  }

  lemma {:induction false} ParamsAppend(a: seq<Condition>, b: seq<Condition>)
    ensures Params(a + b) == Params(a) + Params(b)
  {
    if a != [] {
      assert (a + b)[0] == a[0];
      assert (a + b)[1..] == a[1..] + b;
      ParamsAppend(a[1..], b);
    } else {
      assert a + b == b;
    }
  }

  /** Helper for `BuildQuery`: a list of conditions without placeholders
      binds nothing. */
  lemma {:induction false} NoParams(cs: seq<Condition>)
    requires forall i :: 0 <= i < |cs| ==> ConditionParams(cs[i]) == 0
    ensures Params(cs) == 0
  {
    if cs != [] {
      NoParams(cs[1..]);
    }
  }

  /** `buildQuery(isTitular)`: the monthly-fee table and its filters are
      added exactly when the beneficiary is not looked up as a titular;
      either way the query binds one value, the user number. */
  function BuildQuery(isTitular: bool): (q: Query)
    ensures TxTable in q.from <==> !isTitular
    ensures forall c :: c in TxFilters ==> (c in q.where <==> !isTitular)
    ensures isTitular ==> forall c :: c in q.where ==> !Mentions(c, TxTable)
    ensures forall t :: t in BaseTables ==> t in q.from
    ensures forall c :: c in BaseWhere ==> c in q.where
    ensures Params(q.where) == 1 && q.where[0] == ByUser
  {
    var q := Query(BaseTables + (if isTitular then [] else [TxTable]),
                   BaseWhere + (if isTitular then [] else TxFilters));
    ParamsAppend(BaseWhere, if isTitular then [] else TxFilters);
    NoParams(BaseWhere[1..]);
    NoParams(TxFilters);
    assert forall c :: c in TxFilters ==> Mentions(c, TxTable);
    assert TxTable !in BaseTables;
    assert forall c :: c in BaseWhere ==> !Mentions(c, TxTable);
    q
  }

  /** The titular variant is the other one with the fee table and its
      filters removed. */
  lemma QueryVariants()
    ensures BuildQuery(false).from == BuildQuery(true).from + [TxTable]
    ensures BuildQuery(false).where == BuildQuery(true).where + TxFilters
  {
  }

  // ------------------------------------------------------------ answers

  /** What `db.raw` settles with: the rows, or the driver's error message. */
  datatype DbAnswer = Rows(rows: seq<Row>) | DbFailed(message: string)

  /** `getBeneficiario`: `{ error: false, data }` with the first row, `null`
      when there is none, and `{ error: true, message }` when the query
      throws. */
  function GetBeneficiario(a: DbAnswer): (r: JsVal)
    ensures r.Obj? && Prop(r, "error") == Bool(a.DbFailed?)
    ensures a.DbFailed? ==> Prop(r, "message") == Str(a.message)
    ensures Truthy(Prop(r, "data")) ==> a.Rows? && a.rows != [] && Prop(r, "data") == Obj(a.rows[0])
  {
    match a
    case DbFailed(m) => Obj(map["error" := Bool(true), "message" := Str(m)])
    case Rows(rows) => Obj(map["error" := Bool(false), "data" := if rows == [] then Null else Obj(rows[0])])
  }

  /** The caller's "not found" test `!response.data` fails exactly when the
      query succeeded with at least one row. */
  lemma FoundIffRows(a: DbAnswer)
    ensures Truthy(Prop(GetBeneficiario(a), "data")) <==> a.Rows? && a.rows != []
  {
  }

  /** `getBeneficiarioContato` and `getBeneficiariosLista`: all the rows when
      there is at least one (the list's `!result.length === false` is the
      same test), otherwise `null`; a failure gives `{ error: true, data: null }`. */
  function RowsResponse(a: DbAnswer): (r: JsVal)
    ensures r.Obj? && Prop(r, "error") == Bool(a.DbFailed?)
    ensures IsArray(Prop(r, "data")) <==> a.Rows? && a.rows != []
    ensures IsArray(Prop(r, "data")) ==>
      && |Prop(r, "data").items| == |a.rows|
      && forall i :: 0 <= i < |a.rows| ==> Prop(r, "data").items[i] == Obj(a.rows[i])
    ensures !IsArray(Prop(r, "data")) ==> Prop(r, "data") == Null
  {
    var data := if a.Rows? && |a.rows| > 0 then Arr(RowObjects(a.rows)) else Null;
    Obj(map["error" := Bool(a.DbFailed?), "data" := data])
  }

  /** Helper for `RowsResponse`: each row as the object the driver hands
      back. */
  function RowObjects(rows: seq<Row>): (r: seq<JsVal>)
    ensures |r| == |rows| && forall i :: 0 <= i < |rows| ==> r[i] == Obj(rows[i])
  {
    if rows == [] then [] else [Obj(rows[0])] + RowObjects(rows[1..])
  }
}
