/** scripts/login-token/login-hom.js: one login against the partner, the
    token it returns, and the expiry date read from the token's payload and
    printed as `dd/mm/yyyy, HH:MM:SS`. */
module LoginHom {
  import opened Wrappers
  import opened Text
  import opened JsValues
  import opened Http

  // ------------------------------------------------------------ dates

  /** `pad`: the decimal digits of `n`, at least two of them. */
  function Pad2(n: nat): (r: string)
    ensures AllDigits(r) && |r| >= 2
    ensures ParseDecimal(r) == n
    ensures n < 100 ==> |r| == 2
  {
    PadValue(n, 2);
    PadTwoWide(n);
    Pad(n, 2)
  }

  lemma PadTwoWide(n: nat)
    ensures n < 100 ==> |Pad(n, 2)| == 2
  {
    if n < 100 {
      assert Pow10(2) == 100 by { assert Pow10(1) == 10; }
      PadWidth(n, 2);
    }
  }

  /** `s` is a run of digits whose value is `n`. */
  predicate Reads(s: string, n: nat) {
    AllDigits(s) && ParseDecimal(s) == n
  }

  /** A local date as the `Date` getters give it: `month0` is `getMonth()`,
      counted from 0. */
  datatype LocalDate = LocalDate(day: nat, month0: nat, year: nat, hours: nat, minutes: nat, seconds: nat)

  /** The fields a real date has fit in two digits, the year aside. */
  predicate TwoDigitFields(d: LocalDate) {
    d.day < 100 && d.month0 + 1 < 100 && d.hours < 100 && d.minutes < 100 && d.seconds < 100
  }

  /** `${dd}/${mm}/${yyyy}`: each field parses back at its place. */
  function DatePart(d: LocalDate): (r: string)
    ensures d.day < 100 && d.month0 + 1 < 100 ==>
      && |r| == 6 + |NatToDecimal(d.year)| && r[2] == '/' && r[5] == '/'
      && Reads(r[..2], d.day) && Reads(r[3..5], d.month0 + 1)
      && Reads(r[6..], d.year)
  {
    var dd, mm, yyyy := Pad2(d.day), Pad2(d.month0 + 1), NatToDecimal(d.year);
    ParseNatToDecimal(d.year);
    if d.day < 100 && d.month0 + 1 < 100 then
      Fields(dd, mm, yyyy, '/');
      dd + "/" + mm + "/" + yyyy
    else dd + "/" + mm + "/" + yyyy
  }

  /** `${HH}:${MM}:${SS}`: each field parses back at its place. */
  function TimePart(d: LocalDate): (r: string)
    ensures d.hours < 100 && d.minutes < 100 && d.seconds < 100 ==>
      && |r| == 8 && r[2] == ':' && r[5] == ':'
      && Reads(r[..2], d.hours) && Reads(r[3..5], d.minutes)
      && Reads(r[6..], d.seconds)
  {
    var hh, mi, ss := Pad2(d.hours), Pad2(d.minutes), Pad2(d.seconds);
    if d.hours < 100 && d.minutes < 100 && d.seconds < 100 then
      Fields(hh, mi, ss, ':');
      hh + ":" + mi + ":" + ss
    else hh + ":" + mi + ":" + ss
  }

  /** Where three fields joined by a separator sit, the first two being two
      characters wide. */
  lemma Fields(a: string, b: string, c: string, sep: char)
    requires |a| == 2 && |b| == 2
    ensures var r := a + [sep] + b + [sep] + c;
      && |r| == 6 + |c| && r[2] == sep && r[5] == sep
      && r[..2] == a && r[3..5] == b && r[6..] == c
  {
    var r := a + [sep] + b + [sep] + c;
    assert r[..2] == a;
    assert r[3..5] == b;
    assert r[6..] == c;
  }

  /** `formatPtBR`: the date, a comma and a space, the time. */
  function FormatPtBR(d: LocalDate): (r: string)
    ensures |r| >= 17 && IsDigit(r[0])
  {
    DayLeads(d);
    DatePart(d) + ", " + TimePart(d)
  }

  /** The printed date starts with a digit of the day. */
  lemma DayLeads(d: LocalDate)
    ensures |DatePart(d)| >= 1 && IsDigit(DatePart(d)[0])
  {
    var dd := Pad2(d.day);
    assert DatePart(d)[0] == dd[0];
  }

  /** What `payload.exp * 1000` gives `new Date`: a local date, or an
      Invalid Date when `exp` is not a number or is out of range. */
  datatype Moment = At(date: LocalDate) | InvalidDate

  /** `formatPtBR` of an Invalid Date: every getter gives `NaN`. */
  const InvalidDateText := "NaN/NaN/NaN, NaN:NaN:NaN"

  /** The printed date reads back: with the year at positions 6 up to the
      last ten characters, every field sits at its place in the layout
      `dd/mm/yyyy, HH:MM:SS` and parses to the date's value, the month one
      more than `getMonth()`. */
  lemma FormatPtBRReadsBack(d: LocalDate)
    requires TwoDigitFields(d)
    ensures var r := FormatPtBR(d); var n := |r|;
      && n == 16 + |NatToDecimal(d.year)|
      && r[2] == '/' && r[5] == '/' && r[n - 10] == ',' && r[n - 9] == ' ' && r[n - 6] == ':' && r[n - 3] == ':'
      && Reads(r[..2], d.day)
      && Reads(r[3..5], d.month0 + 1)
      && Reads(r[6..n - 10], d.year)
      && Reads(r[n - 8..n - 6], d.hours)
      && Reads(r[n - 5..n - 3], d.minutes)
      && Reads(r[n - 2..], d.seconds)
  {
    JoinedReads(DatePart(d), TimePart(d), FormatPtBR(d), d);
  }

  /** Where the pieces of `date + ", " + time` sit, counted from either end. */
  lemma JoinedReads(date: string, time: string, r: string, d: LocalDate)
    requires r == date + ", " + time
    requires |date| == 6 + |NatToDecimal(d.year)| && date[2] == '/' && date[5] == '/'
    requires Reads(date[..2], d.day) && Reads(date[3..5], d.month0 + 1) && Reads(date[6..], d.year)
    requires |time| == 8 && time[2] == ':' && time[5] == ':'
    requires Reads(time[..2], d.hours) && Reads(time[3..5], d.minutes) && Reads(time[6..], d.seconds)
    ensures var n := |r|;
      && n == 16 + |NatToDecimal(d.year)|
      && r[2] == '/' && r[5] == '/' && r[n - 10] == ',' && r[n - 9] == ' ' && r[n - 6] == ':' && r[n - 3] == ':'
      && Reads(r[..2], d.day)
      && Reads(r[3..5], d.month0 + 1)
      && Reads(r[6..n - 10], d.year)
      && Reads(r[n - 8..n - 6], d.hours)
      && Reads(r[n - 5..n - 3], d.minutes)
      && Reads(r[n - 2..], d.seconds)
  {
    var n := |r|;
    assert r[..2] == date[..2] && r[3..5] == date[3..5] && r[6..n - 10] == date[6..];
    assert r[n - 8..n - 6] == time[..2] && r[n - 5..n - 3] == time[3..5] && r[n - 2..] == time[6..];
  }

  // ------------------------------------------------------------ base64url

  /** `b64urlDecode` before the decoding: `-` becomes `+`, `_` becomes `/`,
      and `=` pads the text to a multiple of four. */
  function ToBase64(s: string): (r: string)
    ensures |r| % 4 == 0
    ensures |s| <= |r| <= |s| + 3
    ensures forall i :: 0 <= i < |s| ==> r[i] == if s[i] == '-' then '+' else if s[i] == '_' then '/' else s[i]
    ensures forall i :: |s| <= i < |r| ==> r[i] == '='
  {
    var t := ReplaceChar(ReplaceChar(s, '-', '+'), '_', '/');
    t + Repeat('=', (4 - |t| % 4) % 4)
  }

  /** The base64url alphabet leaves out `+`, `/` and `=`. */
  predicate IsBase64Url(s: string) {
    forall i :: 0 <= i < |s| ==> s[i] != '+' && s[i] != '/' && s[i] != '='
  }

  /** The way back: drop the padding and swap the two characters again. */
  function FromBase64(r: string): string {
    ReplaceChar(ReplaceChar(TrimEndChar(r, '='), '+', '-'), '/', '_')
  }

  /** The padding run is exactly what was added. */
  lemma {:induction false} TrimPadding(t: string, k: nat)
    requires t == [] || t[|t| - 1] != '='
    ensures TrimEndChar(t + Repeat('=', k), '=') == t
  {
    if k > 0 {
      var s := t + Repeat('=', k);
      assert s[|s| - 1] == '=';
      assert s[..|s| - 1] == t + Repeat('=', k - 1);
      TrimPadding(t, k - 1);
    } else {
      assert t + Repeat('=', 0) == t;
    }
  }

  /** The normalisation loses nothing on a base64url text. */
  lemma ToBase64RoundTrip(s: string)
    requires IsBase64Url(s)
    ensures FromBase64(ToBase64(s)) == s
  {
    var t := ReplaceChar(ReplaceChar(s, '-', '+'), '_', '/');
    TrimPadding(t, (4 - |t| % 4) % 4);
  }

  // ------------------------------------------------------------ the login

  /** `body.token || body.Token || (typeof body === 'string' ? body : '')`
      with `body = res.data ?? {}`. */
  function TokenOf(data: JsVal): (t: JsVal)
    ensures Truthy(t) ==> t == Prop(data, "token") || t == Prop(data, "Token") || t == data
    ensures Truthy(Prop(data, "token")) ==> t == Prop(data, "token")
    ensures !Truthy(Prop(data, "token")) && Truthy(Prop(data, "Token")) ==> t == Prop(data, "Token")
    ensures data.Str? ==> t == data
    ensures !data.Str? && !Truthy(Prop(data, "token")) && !Truthy(Prop(data, "Token")) ==> t == Str("")
  {
    var body := Coalesce(data, Obj(map[]));
    Or(Or(Prop(body, "token"), Prop(body, "Token")), if body.Str? then body else Str(""))
  }

  /** `expiresInText`: the token's payload is its second dot-separated part;
      `decode` stands for the base64 decoding, the JSON parse, the `exp`
      test and `new Date(exp * 1000)`: `None` when the decoding or the
      parse throws or `exp` is falsy, `Some(InvalidDate)` for a truthy
      `exp` that gives no date, which `formatPtBR` prints as `NaN` fields.
      A token that is not a string cannot be split and gives ''. */
  function ExpiresIn(token: JsVal, decode: string -> Option<Moment>): (e: string)
    ensures e != "" ==>
      && token.Str? && '.' in token.s && |Split(token.s, '.')| >= 2
      && decode(ToBase64(Split(token.s, '.')[1])).Some?
    ensures e == InvalidDateText <==>
      token.Str? && |Split(token.s, '.')| >= 2 && decode(ToBase64(Split(token.s, '.')[1])) == Some(InvalidDate)
    ensures token.Str? && |Split(token.s, '.')| >= 2 ==>
      match decode(ToBase64(Split(token.s, '.')[1]))
      case None => e == ""
      case Some(InvalidDate) => e == InvalidDateText
      case Some(At(d)) => e == FormatPtBR(d)
  {
    if !token.Str? then ""
    else
      var parts := Split(token.s, '.');
      SplitHasTwoParts(token.s, '.');
      if |parts| < 2 then ""
      else
        match decode(ToBase64(parts[1]))
        case None => ""
        case Some(InvalidDate) => InvalidDateText
        case Some(At(d)) =>
          assert !IsDigit(InvalidDateText[0]);
          FormatPtBR(d)
  }

  datatype Report = Report(token: JsVal, expiresIn: string)

  /** How the script ends: no request at all, an error, or the report. */
  datatype LoginRun = Refused(message: string) | Failed(message: string) | Done(report: Report)

  const NoCredentials := "Erro: defina ODONTO_USER e ODONTO_PASS no .env"
  /** What `fs.writeFileSync` throws for data that is not a string (nor a
      buffer, which a parsed JSON body never is). */
  const NotStringData := "The \"data\" argument must be of type string or an instance of Buffer, TypedArray, or DataView."
  const NoTokenFound := "Login OK, mas n\U{00E3}o encontrei o token no retorno."

  function StatusError(status: int): string {
    "Erro login: HTTP " + IntToDecimal(status)
  }

  /** The script: the request accepts every status (`validateStatus: () =>
      true`), so `answer` is rejected only when no response came. A truthy
      token that is not a string (a number or an object under `token`)
      gets past the token test, but writing it to `token_apiv3.txt` throws,
      and the outer `catch` reports the error. */
  function Run(user: string, pass: string, answer: Outcome, decode: string -> Option<Moment>): (r: LoginRun)
    ensures r.Refused? <==> user == "" || pass == ""
    ensures r.Done? <==>
      && user != "" && pass != "" && answer.Resolved?
      && 200 <= answer.reply.status < 300 && TokenOf(answer.reply.data).Str? && TokenOf(answer.reply.data).s != ""
    ensures !r.Refused? && answer.Resolved? && !(200 <= answer.reply.status < 300) ==>
      r == Failed(StatusError(answer.reply.status))
    ensures !r.Refused? && answer.Resolved? && 200 <= answer.reply.status < 300 ==>
      var token := TokenOf(answer.reply.data);
      && (!Truthy(token) ==> r == Failed(NoTokenFound))
      && (Truthy(token) && !token.Str? ==> r == Failed("Erro login: " + NotStringData))
    ensures r.Done? ==>
      var token := TokenOf(answer.reply.data);
      r.report == Report(token, ExpiresIn(token, decode)) && r.report.token.Str? && Truthy(r.report.token)
  {
    if user == "" || pass == "" then Refused(NoCredentials)
    else
      match answer
      case Rejected(_, message) => Failed("Erro login: " + message)
      case Resolved(reply) =>
        if reply.status < 200 || reply.status >= 300 then Failed(StatusError(reply.status))
        else
          var token := TokenOf(reply.data);
          if !Truthy(token) then Failed(NoTokenFound)
          else if !token.Str? then Failed("Erro login: " + NotStringData)
          else Done(Report(token, ExpiresIn(token, decode)))
  }

  /** A JWT `h.p.s` returned under `token` with a 2xx status is reported
      with the expiry its payload `p` decodes to. */
  lemma JwtReport(user: string, pass: string, status: int, h: string, p: string, s: string, d: LocalDate,
                  decode: string -> Option<Moment>)
    requires user != "" && pass != "" && 200 <= status < 300
    requires '.' !in h && '.' !in p
    requires decode(ToBase64(p)) == Some(At(d))
    ensures var token := h + "." + p + "." + s;
      Run(user, pass, Resolved(Reply(status, Obj(map["token" := Str(token)]))), decode)
        == Done(Report(Str(token), FormatPtBR(d)))
  {
    var token := h + "." + p + "." + s;
    var data := Obj(map["token" := Str(token)]);
    assert |token| > 0;
    JwtExpiry(h, p, s, d, decode);
    TokenField(data, token);
  }

  /** A body `{ token: t }` with a non-empty string `t` gives `t`. */
  lemma TokenField(data: JsVal, token: string)
    requires data == Obj(map["token" := Str(token)]) && token != ""
    ensures TokenOf(data) == Str(token)
  {
    assert Field(data.fields, "token") == Str(token);
    assert Prop(data, "token") == Str(token);
  }

  /** The expiry of a JWT `h.p.s` is read from its payload `p`. */
  lemma JwtExpiry(h: string, p: string, s: string, d: LocalDate, decode: string -> Option<Moment>)
    requires '.' !in h && '.' !in p
    requires decode(ToBase64(p)) == Some(At(d))
    ensures ExpiresIn(Str(h + "." + p + "." + s), decode) == FormatPtBR(d)
  {
    var token := h + "." + p + "." + s;
    assert token == h + ['.'] + (p + ['.'] + s);
    SplitAfter(h, p + ['.'] + s, '.');
    SplitAfter(p, s, '.');
    assert Split(token, '.')[1] == p;
  }

  /** A token without a dot has no payload to read, whatever `decode` says. */
  lemma NoDotNoExpiry(token: string, decode: string -> Option<Moment>)
    requires '.' !in token
    ensures ExpiresIn(Str(token), decode) == ""
  {
  }
}
