/** JavaScript values as the controllers and scripts see them: database rows
    (objects keyed by column name), response bodies and the results of the
    coercions `String()`, `Number()`, `||`, `??` and truthiness tests.
    Shared helpers that the source copies into several files (`get`,
    `onlyDigits`, `trunc`) are defined once here. */
module JsValues {
  import opened Text

  /** A JavaScript value. Numbers are integers (see README: fractions are not
      modelled); `NaN` is kept apart because `Number()` produces it. */
  datatype JsVal =
    | Undef
    | Null
    | Bool(b: bool)
    | Num(n: int)
    | NaN
    | Str(s: string)
    | Arr(items: seq<JsVal>)
    | Obj(fields: map<string, JsVal>)

  /** A database row or a plain response object: property name to value. */
  type Row = map<string, JsVal>

  /** JavaScript truthiness: what `if (v)`, `!v`, `||` and `&&` test. */
  predicate Truthy(v: JsVal) {
    match v
    case Undef => false
    case Null => false
    case Bool(b) => b
    case Num(n) => n != 0
    case NaN => false
    case Str(s) => s != ""
    case Arr(_) => true
    case Obj(_) => true
  }

  /** What `??` and `?.` test, and `== null`. */
  predicate Nullish(v: JsVal) {
    v.Undef? || v.Null?
  }

  /** `a || b`. */
  function Or(a: JsVal, b: JsVal): JsVal {
    if Truthy(a) then a else b
  }

  /** `a && b`. */
  function And(a: JsVal, b: JsVal): JsVal {
    if Truthy(a) then b else a
  }

  /** `a ?? b`. */
  function Coalesce(a: JsVal, b: JsVal): JsVal {
    if Nullish(a) then b else a
  }

  /** `row[k]` on an object: `undefined` for a missing property. */
  function Field(row: Row, k: string): JsVal {
    if k in row then row[k] else Undef
  }

  /** `v.k` for a value that is not `null`/`undefined` (on those JavaScript
      throws; callers that can meet them test `Nullish` first). Only objects
      carry the properties the source reads. */
  function Prop(v: JsVal, k: string): JsVal {
    if v.Obj? then Field(v.fields, k) else Undef
  }

  /** `v?.k`. */
  function OptProp(v: JsVal, k: string): JsVal {
    if Nullish(v) then Undef else Prop(v, k)
  }

  predicate IsArray(v: JsVal) {
    v.Arr?
  }

  /** `String(v)`. */
  function ToStr(v: JsVal): string
    decreases v, 1
  {
    match v
    case Undef => "undefined"
    case Null => "null"
    case Bool(b) => if b then "true" else "false"
    case Num(n) => IntToDecimal(n)
    case NaN => "NaN"
    case Str(s) => s
    case Arr(items) => JoinItems(items)
    case Obj(_) => "[object Object]"
  }

  /** `Array.prototype.join(',')`, where `null`/`undefined` elements print as ''. */
  function JoinItems(items: seq<JsVal>): string
    decreases items, 0
  {
    if items == [] then ""
    else
      var head := if Nullish(items[0]) then "" else ToStr(items[0]);
      if |items| == 1 then head else head + "," + JoinItems(items[1..])
  }

  /** `Number(s)` for a string: blank is 0, an optionally signed run of
      decimal digits is its value, everything else is `NaN` here. */
  function ParseNumber(s: string): (r: JsVal)
    ensures r.Num? || r.NaN?
  {
    var t := Trim(s);
    if t == "" then Num(0)
    else if AllDigits(t) then Num(ParseDecimal(t))
    else if |t| >= 2 && (t[0] == '-' || t[0] == '+') && AllDigits(t[1..]) then
      var m: int := ParseDecimal(t[1..]);
      Num(if t[0] == '-' then -m else m)
    else NaN
  }

  /** `Number(v)`. */
  function ToNumber(v: JsVal): (r: JsVal)
    ensures r.Num? || r.NaN?
    ensures v.Num? ==> r == v
    ensures v.Null? ==> r == Num(0)
    ensures v.Undef? ==> r == NaN
  {
    match v
    case Undef => NaN
    case Null => Num(0)
    case Bool(b) => Num(if b then 1 else 0)
    case Num(_) => v
    case NaN => NaN
    case Str(s) => ParseNumber(s)
    case Arr(_) => ParseNumber(ToStr(v))
    case Obj(_) => NaN
  }

  /** `Number(String(n)) === n`: rendering an integer and reading it back is
      the identity. */
  lemma NumberOfDecimal(n: int)
    ensures ToNumber(Str(IntToDecimal(n))) == Num(n)
  {
    if n >= 0 {
      ParseNumberOfDigits(NatToDecimal(n));
      ParseNatToDecimal(n);
    } else {
      ParseNumberOfNegative(NatToDecimal(-n));
      ParseNatToDecimal(-n);
    }
  }

  lemma ParseNumberOfDigits(d: string)
    requires d != [] && AllDigits(d)
    ensures ParseNumber(d) == Num(ParseDecimal(d))
  {
    assert !IsJsSpace(d[0]) && !IsJsSpace(d[|d| - 1]) by {
      assert IsDigit(d[0]) && IsDigit(d[|d| - 1]);
    }
    TrimmedIsFixed(d);
  }

  lemma ParseNumberOfNegative(d: string)
    requires d != [] && AllDigits(d)
    ensures ParseNumber("-" + d) == Num(0 - ParseDecimal(d))
  {
    var t := "-" + d;
    assert t[|t| - 1] == d[|d| - 1];
    assert IsDigit(d[|d| - 1]);
    assert !IsJsSpace(t[0]) && !IsJsSpace(t[|t| - 1]);
    TrimmedIsFixed(t);
    assert Trim(t) == t;
    assert t[1..] == d;
    assert !AllDigits(t) by { assert !IsDigit(t[0]); }
  }

  /** `(v || '').toString()`. */
  function OrEmpty(v: JsVal): (r: string)
    ensures !Truthy(v) ==> r == ""
    ensures Truthy(v) ==> r == ToStr(v)
  {
    if Truthy(v) then ToStr(v) else ""
  }

  /** `onlyDigits(v)`: `(v || '').toString().replace(/\D/g, '')`, identical to
      the `String(v || '')` spelling some files use. */
  function OnlyDigits(v: JsVal): (r: string)
    ensures AllDigits(r)
    ensures !Truthy(v) ==> r == ""
    ensures v.Str? ==> r == KeepDigits(v.s)
  {
    KeepDigits(OrEmpty(v))
  }

  /** Stripping an already stripped value changes nothing. */
  lemma OnlyDigitsIdempotent(v: JsVal)
    ensures OnlyDigits(Str(OnlyDigits(v))) == OnlyDigits(v)
  {
  }

  /** The 70-character cut the generators and `mapRowToBody` apply to
      names. */
  const NameLimit := 70

  /** `trunc(v, len)`: `(v || '').toString().substring(0, len)`. */
  function Trunc(v: JsVal, len: nat): (r: string)
    ensures |r| <= len
    ensures |OrEmpty(v)| <= len ==> r == OrEmpty(v)
  {
    Take(OrEmpty(v), len)
  }

  /** `trunc` keeps a prefix of the stringified value, as long as allowed;
      a falsy value gives ''. */
  lemma TruncIsPrefix(v: JsVal, len: nat)
    ensures Trunc(v, len) <= OrEmpty(v)
    ensures |Trunc(v, len)| == if |OrEmpty(v)| <= len then |OrEmpty(v)| else len
    ensures !Truthy(v) ==> Trunc(v, len) == ""
  {
    TakeIsPrefix(OrEmpty(v), len);
  }

  // ----------------------------------------------------- case-blind lookup

  /** `get(row, ...names)`: for each name, the value stored under it as given,
      then upper-cased, then lower-cased, skipping `undefined`; `null` when no
      candidate is defined. */
  function Get(row: Row, names: seq<string>): (r: JsVal)
    ensures r != Undef
  {
    if names == [] then Null
    else
      var n := names[0];
      if Field(row, n) != Undef then Field(row, n)
      else if Field(row, ToUpper(n)) != Undef then Field(row, ToUpper(n))
      else if Field(row, ToLower(n)) != Undef then Field(row, ToLower(n))
      else Get(row, names[1..])
  }

  /** The keys `get` tries, in order: every name as given, upper, lower. */
  function Candidates(names: seq<string>): (keys: seq<string>)
    ensures |keys| == 3 * |names|
  {
    if names == [] then []
    else [names[0], ToUpper(names[0]), ToLower(names[0])] + Candidates(names[1..])
  }

  /** Position `j` holds the first candidate key whose value is defined. */
  ghost predicate FirstDefinedAt(row: Row, keys: seq<string>, j: int) {
    && 0 <= j < |keys|
    && Field(row, keys[j]) != Undef
    && forall j' :: 0 <= j' < j ==> Field(row, keys[j']) == Undef
  }

  ghost predicate IsFirstDefinedValue(row: Row, keys: seq<string>, r: JsVal) {
    exists j :: FirstDefinedAt(row, keys, j) && r == Field(row, keys[j])
  }

  ghost predicate NoneDefined(row: Row, keys: seq<string>) {
    forall j :: 0 <= j < |keys| ==> Field(row, keys[j]) == Undef
  }

  /** `get` returns the value under the first defined candidate key (a stored
      `null` counts as defined), and `null` exactly when no candidate is. */
  lemma {:induction false} GetIsFirstDefined(row: Row, names: seq<string>)
    ensures IsFirstDefinedValue(row, Candidates(names), Get(row, names))
      || (Get(row, names) == Null && NoneDefined(row, Candidates(names)))
  {
    if names != [] {
      var keys := Candidates(names);
      var n := names[0];
      assert keys[0] == n && keys[1] == ToUpper(n) && keys[2] == ToLower(n);
      if Field(row, n) != Undef {
        assert FirstDefinedAt(row, keys, 0);
      } else if Field(row, ToUpper(n)) != Undef {
        assert FirstDefinedAt(row, keys, 1);
      } else if Field(row, ToLower(n)) != Undef {
        assert FirstDefinedAt(row, keys, 2);
      } else {
        var rest := Candidates(names[1..]);
        assert keys[3..] == rest;
        GetIsFirstDefined(row, names[1..]);
        if IsFirstDefinedValue(row, rest, Get(row, names[1..])) {
          var j :| FirstDefinedAt(row, rest, j) && Get(row, names[1..]) == Field(row, rest[j]);
          assert keys[j + 3] == rest[j];
          forall j' | 0 <= j' < j + 3 ensures Field(row, keys[j']) == Undef {
            if j' >= 3 {
              assert keys[j'] == rest[j' - 3];
            }
          }
          assert FirstDefinedAt(row, keys, j + 3);
        } else {
          forall j | 0 <= j < |keys| ensures Field(row, keys[j]) == Undef {
            if j >= 3 {
              assert keys[j] == rest[j - 3];
            }
          }
        }
      }
    }
  }
}
