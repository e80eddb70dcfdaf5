/** `AtualizaTokenOdonto` (AtualizaTokenOdonto.js): log in, then write the
    token, and its expiry when the answer has one, into the `.env` text:
    the first line `KEY=...` is replaced, or a line is appended. */
module EnvToken {
  import opened Wrappers
  import opened Text
  import opened JsValues
  import opened Http

  // ------------------------------------------------------------ lines

  /** The characters at which `^` matches in multiline mode and `.` stops. */
  predicate IsLineTerminator(c: char) {
    c == '\n' || c == '\r' || c == '\U{2028}' || c == '\U{2029}'
  }

  predicate NoLineBreak(s: string) {
    forall i :: 0 <= i < |s| ==> !IsLineTerminator(s[i])
  }

  /** Where `^` matches in multiline mode. */
  predicate LineStart(s: string, i: nat)
    requires i <= |s|
  {
    i == 0 || IsLineTerminator(s[i - 1])
  }

  /** `^KEY=` matches at `i`. */
  predicate MatchAt(s: string, key: string, i: nat) {
    i <= |s| && LineStart(s, i) && OccursAt(s, key + "=", i)
  }

  /** The leftmost match at or after `i`. */
  function FindFrom(s: string, key: string, i: nat): (r: Option<nat>)
    requires i <= |s|
    ensures r.Some? ==> i <= r.value <= |s| && MatchAt(s, key, r.value)
    ensures r.Some? ==> forall p: nat :: i <= p < r.value ==> !MatchAt(s, key, p)
    ensures r.None? ==> forall p: nat :: i <= p <= |s| ==> !MatchAt(s, key, p)
    decreases |s| - i
  {
    if MatchAt(s, key, i) then Some(i)
    else if i == |s| then None
    else FindFrom(s, key, i + 1)
  }

  /** Where the multiline pattern `^KEY=.*` first matches, if anywhere. */
  function FirstMatch(s: string, key: string): (r: Option<nat>)
    ensures r.Some? ==> r.value + |key| + 1 <= |s| && MatchAt(s, key, r.value)
    ensures r.Some? ==> forall p: nat :: p < r.value ==> !MatchAt(s, key, p)
    ensures r.None? ==> forall p: nat :: !MatchAt(s, key, p)
  {
    FindFrom(s, key, 0)
  }

  /** The end of the line at `i`: where `.*` stops. */
  function LineEnd(s: string, i: nat): (j: nat)
    requires i <= |s|
    ensures i <= j <= |s|
    ensures forall p :: i <= p < j ==> !IsLineTerminator(s[p])
    ensures j == |s| || IsLineTerminator(s[j])
    decreases |s| - i
  {
    if i == |s| || IsLineTerminator(s[i]) then i else LineEnd(s, i + 1)
  }

  /** What follows `KEY=` on the first line that starts with it. */
  function ValueOf(s: string, key: string): (v: Option<string>)
    ensures v.Some? <==> FirstMatch(s, key).Some?
    ensures v.Some? ==> NoLineBreak(v.value)
  {
    match FirstMatch(s, key)
    case None => None
    case Some(i) => Some(s[i + |key| + 1..LineEnd(s, i + |key| + 1)])
  }

  /** The first line `KEY=...` replaced by `KEY=value`, or `"\nKEY=value"`
      appended when there is none; the rest of the text is kept. The value
      is inserted as it is (see README on `$` patterns). */
  function Upsert(s: string, key: string, value: string): (r: string)
    ensures FirstMatch(s, key).None? ==> |r| == |s| + |key| + 2 + |value| && r[..|s|] == s && r[|s|..] == "\n" + key + "=" + value
    ensures FirstMatch(s, key).Some? ==>
      var i := FirstMatch(s, key).value;
      var j := LineEnd(s, i + |key| + 1);
      && |r| == i + |key| + 1 + |value| + |s| - j
      && r[..i] == s[..i] && r[i..i + |key| + 1 + |value|] == key + "=" + value
      && r[i + |key| + 1 + |value|..] == s[j..]
  {
    match FirstMatch(s, key)
    case None => s + "\n" + key + "=" + value
    case Some(i) =>
      var line := key + "=" + value;
      var r := s[..i] + line + s[LineEnd(s, i + |key| + 1)..];
      assert r[..i] == s[..i] && r[i..i + |line|] == line;
      r
  }

  /** A key and a value fit on one line. */
  predicate OneLine(key: string, value: string) {
    NoLineBreak(key) && NoLineBreak(value)
  }

  /** Where the key's line stands after the upsert: in place of the old
      one, or after the appended newline. */
  function Position(s: string, key: string): nat {
    if FirstMatch(s, key).Some? then FirstMatch(s, key).value else |s| + 1
  }

  /** The upsert leaves the line `KEY=value`, whole, at `Position`. */
  lemma UpsertLineAt(s: string, key: string, value: string)
    ensures var r := Upsert(s, key, value); var i := Position(s, key); var n := |key| + 1 + |value|;
      && i + n <= |r| && LineStart(r, i) && r[i..i + n] == key + "=" + value
      && (i + n == |r| || IsLineTerminator(r[i + n]))
  {
    var r := Upsert(s, key, value);
    if FirstMatch(s, key).Some? {
      var i := FirstMatch(s, key).value;
      var n := |key| + 1 + |value|;
      var j := LineEnd(s, i + |key| + 1);
      if i > 0 {
        assert r[i - 1] == r[..i][i - 1] == s[..i][i - 1];
      }
      if i + n < |r| {
        assert r[i + n] == r[i + n..][0] == s[j..][0];
      }
    }
  }

  /** The value part of a whole line `KEY=value` runs to the line's end. */
  lemma LineAtEnd(r: string, key: string, value: string, i: nat)
    requires NoLineBreak(value)
    requires i + |key| + 1 + |value| <= |r| && r[i..i + |key| + 1 + |value|] == key + "=" + value
    requires i + |key| + 1 + |value| == |r| || IsLineTerminator(r[i + |key| + 1 + |value|])
    ensures LineEnd(r, i + |key| + 1) == i + |key| + 1 + |value|
    ensures r[i + |key| + 1..i + |key| + 1 + |value|] == value
  {
    var k, j := i + |key| + 1, i + |key| + 1 + |value|;
    assert r[k..j] == value by {
      assert r[k..j] == r[i..j][|key| + 1..];
      assert (key + "=" + value)[|key| + 1..] == value;
    }
    forall p | k <= p < j ensures !IsLineTerminator(r[p]) {
      assert r[p] == r[k..j][p - k];
    }
    LineEndIs(r, k, j);
  }

  /** A whole line `KEY=value` with no match before it is the key's line,
      and its value is `value`. */
  lemma LineAtGivesValue(r: string, key: string, value: string, i: nat)
    requires NoLineBreak(value)
    requires i + |key| + 1 + |value| <= |r| && LineStart(r, i) && r[i..i + |key| + 1 + |value|] == key + "=" + value
    requires i + |key| + 1 + |value| == |r| || IsLineTerminator(r[i + |key| + 1 + |value|])
    requires forall p: nat :: p < i ==> !MatchAt(r, key, p)
    ensures FirstMatch(r, key) == Some(i)
    ensures LineEnd(r, i + |key| + 1) == i + |key| + 1 + |value|
    ensures ValueOf(r, key) == Some(value)
  {
    assert OccursAt(r, key + "=", i) by {
      assert r[i..i + |key| + 1] == (key + "=" + value)[..|key| + 1];
    }
    FirstMatchIs(r, key, i);
    LineAtEnd(r, key, value, i);
    ValueAt(r, key, i, i + |key| + 1 + |value|);
  }

  lemma ValueAt(r: string, key: string, i: nat, j: nat)
    requires FirstMatch(r, key) == Some(i) && i + |key| + 1 <= j <= |r| && LineEnd(r, i + |key| + 1) == j
    ensures ValueOf(r, key) == Some(r[i + |key| + 1..j])
  {
    match FirstMatch(r, key)
    case Some(i') => assert i' == i;
  }

  /** After the upsert the key's line is where the old one was, or at the
      end, and holds exactly the new value. */
  lemma UpsertSetsValue(s: string, key: string, value: string)
    requires OneLine(key, value)
    ensures FirstMatch(Upsert(s, key, value), key) == Some(Position(s, key))
    ensures ValueOf(Upsert(s, key, value), key) == Some(value)
  {
    UpsertLineAt(s, key, value);
    forall p: nat | p < Position(s, key) ensures !MatchAt(Upsert(s, key, value), key, p) {
      NoEarlierMatch(s, key, value, p);
    }
    LineAtGivesValue(Upsert(s, key, value), key, value, Position(s, key));
  }

  /** The match at a position is the first one when none comes before. */
  lemma FirstMatchIs(s: string, key: string, i: nat)
    requires MatchAt(s, key, i)
    requires forall p: nat :: p < i ==> !MatchAt(s, key, p)
    ensures FirstMatch(s, key) == Some(i)
  {
  }

  /** The line end is the first terminator from `i`. */
  lemma LineEndIs(s: string, i: nat, j: nat)
    requires i <= j <= |s|
    requires forall p :: i <= p < j ==> !IsLineTerminator(s[p])
    requires j == |s| || IsLineTerminator(s[j])
    ensures LineEnd(s, i) == j
  {
  }

  /** The upsert creates no match before the position of the key's line. */
  lemma NoEarlierMatch(s: string, key: string, value: string, p: nat)
    requires OneLine(key, value)
    requires p < Position(s, key)
    ensures !MatchAt(Upsert(s, key, value), key, p)
  {
    var m := key + "=";
    assert NoLineBreak(m) by {
      assert forall q :: 0 <= q < |key| ==> m[q] == key[q];
    }
    if FirstMatch(s, key).Some? {
      NoEarlierMatchReplaced(s, key, value, p);
    } else {
      NoEarlierMatchAppended(s, key, value, p);
    }
  }

  lemma NoEarlierMatchReplaced(s: string, key: string, value: string, p: nat)
    requires FirstMatch(s, key).Some? && p < FirstMatch(s, key).value
    ensures !MatchAt(Upsert(s, key, value), key, p)
  {
    var r := Upsert(s, key, value);
    var m := key + "=";
    var i := FirstMatch(s, key).value;
    // r and s agree up to and including the key of the replaced line
    assert r[..i + |m|] == s[..i + |m|] by {
      assert r[..i] == s[..i];
      assert r[i..i + |m|] == (key + "=" + value)[..|m|] == m;
      assert s[i..i + |m|] == m;
    }
    MatchInCommonPrefix(r, s, key, i + |m|, p);
  }

  /** A match that ends within a prefix two texts share is a match in both. */
  lemma MatchInCommonPrefix(r: string, s: string, key: string, n: nat, p: nat)
    requires n <= |r| && n <= |s| && r[..n] == s[..n] && p + |key| + 1 <= n
    ensures MatchAt(r, key, p) ==> MatchAt(s, key, p)
  {
    var m := key + "=";
    if MatchAt(r, key, p) {
      assert r[p..p + |m|] == r[..n][p..p + |m|];
      assert s[p..p + |m|] == s[..n][p..p + |m|];
      if p > 0 {
        assert r[p - 1] == r[..n][p - 1];
        assert s[p - 1] == s[..n][p - 1];
      }
    }
  }

  lemma NoEarlierMatchAppended(s: string, key: string, value: string, p: nat)
    requires NoLineBreak(key + "=")
    requires FirstMatch(s, key).None? && p <= |s|
    ensures !MatchAt(Upsert(s, key, value), key, p)
  {
    var r := Upsert(s, key, value);
    var m := key + "=";
    if MatchAt(r, key, p) {
      if p + |m| <= |s| {
        assert r[p..p + |m|] == s[p..p + |m|] by {
          assert r[p..p + |m|] == r[..|s|][p..p + |m|];
        }
        assert LineStart(s, p) by {
          if p > 0 {
            assert r[p - 1] == r[..|s|][p - 1];
          }
        }
        assert MatchAt(s, key, p);
      } else {
        // the match would run into the newline that starts the new line
        assert r[|s|] == '\n' by {
          assert r[|s|..][0] == '\n';
        }
        NotAcrossBreak(r, m, p, |s|);
      }
    }
  }

  /** A text with no line break cannot occur across one. */
  lemma NotAcrossBreak(r: string, m: string, p: nat, q: nat)
    requires NoLineBreak(m) && q < |r| && IsLineTerminator(r[q])
    ensures OccursAt(r, m, p) ==> q < p || p + |m| <= q
  {
    if p <= q < p + |m| {
      assert !IsLineTerminator(m[q - p]);
      if p + |m| <= |r| {
        assert r[p..p + |m|][q - p] == r[q];
      }
    }
  }

  /** Writing the same value twice changes nothing the second time. */
  lemma UpsertIdempotent(s: string, key: string, value: string)
    requires OneLine(key, value)
    ensures Upsert(Upsert(s, key, value), key, value) == Upsert(s, key, value)
  {
    var r := Upsert(s, key, value);
    UpsertLineAt(s, key, value);
    UpsertSetsValue(s, key, value);
    LineAtGivesValue(r, key, value, Position(s, key));
    var i := Position(s, key);
    SameInThreePieces(Upsert(r, key, value), r, i, i + |key| + 1 + |value|);
  }

  lemma SameInThreePieces(a: string, b: string, i: nat, k: nat)
    requires |a| == |b| && i <= k <= |a|
    requires a[..i] == b[..i] && a[i..k] == b[i..k] && a[k..] == b[k..]
    ensures a == b
  {
    assert a == a[..i] + a[i..k] + a[k..];
    assert b == b[..i] + b[i..k] + b[k..];
  }

  // ------------------------------------------------------------ other keys

  /** Neither `KEY=` pattern is a prefix of the other, so no line can start
      with both. */
  predicate Distinct(k1: string, k2: string) {
    !(k1 + "=" <= k2 + "=") && !(k2 + "=" <= k1 + "=")
  }

  lemma NoClashAt(r: string, k1: string, k2: string, p: nat)
    requires Distinct(k1, k2) && OccursAt(r, k1 + "=", p)
    ensures !OccursAt(r, k2 + "=", p)
  {
    var m1, m2 := k1 + "=", k2 + "=";
    if |m1| <= |m2| && p + |m2| <= |r| {
      assert r[p..p + |m2|][..|m1|] == r[p..p + |m1|];
    } else if |m2| < |m1| {
      assert r[p..p + |m1|][..|m2|] == r[p..p + |m2|];
    }
  }

  /** Two texts that agree on their first `n` characters have the same
      matches wholly inside them. */
  lemma PrefixMatch(s: string, r: string, key: string, n: nat, p: nat)
    requires n <= |s| && n <= |r| && s[..n] == r[..n] && p + |key| + 1 <= n
    ensures MatchAt(s, key, p) <==> MatchAt(r, key, p)
  {
    var m := key + "=";
    assert s[p..p + |m|] == s[..n][p..p + |m|];
    assert r[p..p + |m|] == r[..n][p..p + |m|];
    if p > 0 {
      assert s[p - 1] == s[..n][p - 1];
      assert r[p - 1] == r[..n][p - 1];
    }
  }

  /** Two texts with a common tail have the same matches in it. */
  lemma ShiftMatch(s: string, r: string, key: string, a: nat, b: nat, p: nat)
    requires a <= |s| && b <= |r| && s[a..] == r[b..] && a < p <= |s|
    ensures MatchAt(s, key, p) <==> MatchAt(r, key, p - a + b)
  {
    var m, p' := key + "=", p - a + b;
    assert s[p - 1] == s[a..][p - 1 - a] == r[b..][p - 1 - a] == r[p' - 1];
    if p + |m| <= |s| {
      forall x | p <= x < p + |m| ensures s[x] == r[x - p + p'] {
        assert s[x] == s[a..][x - a] == r[b..][x - a] == r[x - p + p'];
      }
      assert s[p..p + |m|] == r[p'..p' + |m|];
    }
  }

  /** Line ends in a common tail correspond. */
  lemma LineEndShift(s: string, r: string, a: nat, b: nat, x: nat)
    requires a <= x <= |s| && b <= |r| && s[a..] == r[b..]
    ensures LineEnd(r, x - a + b) == LineEnd(s, x) - a + b
  {
    var e := LineEnd(s, x);
    forall p | x - a + b <= p < e - a + b ensures !IsLineTerminator(r[p]) {
      assert r[p] == r[b..][p - b] == s[a..][p - b] == s[p - b + a];
    }
    if e < |s| {
      assert r[e - a + b] == r[b..][e - a] == s[a..][e - a] == s[e];
    }
    LineEndIs(r, x - a + b, e - a + b);
  }

  /** A line that ends inside a common prefix ends at the same place. */
  lemma LineEndPrefix(s: string, r: string, n: nat, x: nat)
    requires x <= n <= |s| && n <= |r| && s[..n] == r[..n]
    requires LineEnd(s, x) < n || (LineEnd(s, x) == n && (n == |r| || IsLineTerminator(r[n])))
    ensures LineEnd(r, x) == LineEnd(s, x)
  {
    var e := LineEnd(s, x);
    forall p | x <= p < e ensures !IsLineTerminator(r[p]) {
      assert r[p] == r[..n][p] == s[..n][p] == s[p];
    }
    if e < n {
      assert r[e] == r[..n][e] == s[..n][e] == s[e];
    }
    LineEndIs(r, x, e);
  }

  /** No `^` matches strictly inside or right after a line with no break. */
  lemma NotLineStartInside(r: string, l: string, a: nat, p: nat)
    requires NoLineBreak(l) && a + |l| <= |r| && r[a..a + |l|] == l && a < p <= a + |l|
    ensures !LineStart(r, p)
  {
    assert r[p - 1] == r[a..a + |l|][p - 1 - a];
  }

  lemma FirstMatchNone(s: string, key: string)
    requires forall p: nat :: !MatchAt(s, key, p)
    ensures FirstMatch(s, key).None?
  {
  }

  lemma KeyPatternOneLine(key: string)
    requires NoLineBreak(key)
    ensures NoLineBreak(key + "=")
  {
    assert forall q :: 0 <= q < |key| ==> (key + "=")[q] == key[q];
  }

  lemma SliceOfTail(s: string, a: nat, x: nat, e: nat)
    requires a <= x <= e <= |s|
    ensures s[a..][x - a..e - a] == s[x..e]
  {
    forall k | 0 <= k < e - x ensures s[a..][x - a..e - a][k] == s[x..e][k] {
      assert s[a..][x - a..e - a][k] == s[a..][x - a + k] == s[x + k];
    }
  }

  lemma SliceOfHead(s: string, n: nat, x: nat, e: nat)
    requires x <= e <= n <= |s|
    ensures s[..n][x..e] == s[x..e]
  {
  }

  /** Before a line start where two texts stop agreeing, their matches are
      the same. */
  lemma MatchesBefore(s: string, r: string, key: string, n: nat)
    requires NoLineBreak(key + "=")
    requires n <= |s| && n <= |r| && s[..n] == r[..n]
    requires n > 0 ==> IsLineTerminator(s[n - 1])
    ensures forall p: nat :: p < n ==> (MatchAt(r, key, p) <==> MatchAt(s, key, p))
  {
    forall p: nat | p < n ensures MatchAt(r, key, p) <==> MatchAt(s, key, p) {
      if p + |key| + 1 <= n {
        PrefixMatch(s, r, key, n, p);
      } else {
        assert r[n - 1] == r[..n][n - 1] == s[..n][n - 1];
        NotAcrossBreak(s, key + "=", p, n - 1);
        NotAcrossBreak(r, key + "=", p, n - 1);
      }
    }
  }

  /** A whole line `k1=...` holds no match of another key. */
  lemma NoMatchInLine(r: string, k1: string, k2: string, l: string, i: nat)
    requires Distinct(k1, k2) && NoLineBreak(l)
    requires i + |l| <= |r| && r[i..i + |l|] == l && |k1| + 1 <= |l| && l[..|k1| + 1] == k1 + "="
    ensures forall p: nat :: i <= p <= i + |l| ==> !MatchAt(r, k2, p)
  {
    forall p: nat | i <= p <= i + |l| ensures !MatchAt(r, k2, p) {
      if p == i {
        assert OccursAt(r, k1 + "=", p) by {
          assert r[p..p + |k1| + 1] == r[i..i + |l|][..|k1| + 1];
        }
        NoClashAt(r, k1, k2, p);
      } else {
        NotLineStartInside(r, l, i, p);
      }
    }
  }

  /** Matches in a common tail correspond. */
  lemma MatchesAfter(s: string, r: string, key: string, a: nat, b: nat)
    requires a <= |s| && b <= |r| && s[a..] == r[b..]
    ensures forall p: nat :: a < p <= |s| ==> (MatchAt(s, key, p) <==> MatchAt(r, key, p - a + b))
    ensures forall p: nat :: b < p <= |r| ==> (MatchAt(r, key, p) <==> MatchAt(s, key, p - b + a))
  {
    forall p: nat | a < p <= |s| ensures MatchAt(s, key, p) <==> MatchAt(r, key, p - a + b) {
      ShiftMatch(s, r, key, a, b, p);
    }
    forall p: nat | b < p <= |r| ensures MatchAt(r, key, p) <==> MatchAt(s, key, p - b + a) {
      ShiftMatch(s, r, key, a, b, p - b + a);
    }
  }

  /** Writing one key leaves what another key reads unchanged: the
      `ODONTO_APIV3_TOKEN` upsert never touches an
      `ODONTO_APIV3_TOKEN_EXPIRES` line, and the other way round. */
  lemma UpsertKeepsOtherKey(s: string, k1: string, value: string, k2: string)
    requires OneLine(k1, value) && NoLineBreak(k2) && Distinct(k1, k2)
    ensures ValueOf(Upsert(s, k1, value), k2) == ValueOf(s, k2)
  {
    KeyPatternOneLine(k1);
    KeyPatternOneLine(k2);
    UpsertLineAt(s, k1, value);
    if FirstMatch(s, k1).Some? {
      KeepsOtherKeyReplaced(s, k1, value, k2);
    } else {
      KeepsOtherKeyAppended(s, k1, value, k2);
    }
  }

  lemma KeepsOtherKeyAppended(s: string, k1: string, value: string, k2: string)
    requires NoLineBreak(k1 + "=" + value) && NoLineBreak(k2 + "=") && Distinct(k1, k2)
    requires FirstMatch(s, k1).None?
    ensures ValueOf(Upsert(s, k1, value), k2) == ValueOf(s, k2)
  {
    var r := Upsert(s, k1, value);
    var l := k1 + "=" + value;
    assert r[|s|] == '\n' by {
      assert r[|s|..][0] == '\n';
    }
    assert r[|s| + 1..] == l by {
      assert r[|s|..] == "\n" + l;
    }
    assert l[..|k1| + 1] == k1 + "=";
    OtherKeyAfterAppend(s, r, k1, k2, l);
  }

  /** The same, for any text extended by a newline and a whole `k1=` line. */
  lemma OtherKeyAfterAppend(s: string, r: string, k1: string, k2: string, l: string)
    requires NoLineBreak(l) && NoLineBreak(k2 + "=") && Distinct(k1, k2)
    requires |r| == |s| + 1 + |l| && r[..|s|] == s && r[|s|] == '\n' && r[|s| + 1..] == l
    requires |k1| + 1 <= |l| && l[..|k1| + 1] == k1 + "="
    ensures ValueOf(r, k2) == ValueOf(s, k2)
  {
    NoMatchInLine(r, k1, k2, l, |s| + 1);
    MatchesBeforeBreak(s, r, k2);
    if FirstMatch(s, k2).Some? {
      OtherKeyValueBeforeBreak(s, r, k2, FirstMatch(s, k2).value);
    } else {
      FirstMatchNone(r, k2);
    }
  }

  /** A text followed by a line break has the matches of the text. */
  lemma MatchesBeforeBreak(s: string, r: string, key: string)
    requires NoLineBreak(key + "=")
    requires |s| < |r| && r[..|s|] == s && IsLineTerminator(r[|s|])
    ensures forall p: nat :: p <= |s| ==> (MatchAt(r, key, p) <==> MatchAt(s, key, p))
  {
    forall p: nat | p <= |s| ensures MatchAt(r, key, p) <==> MatchAt(s, key, p) {
      if p + |key| + 1 <= |s| {
        PrefixMatch(s, r, key, |s|, p);
      } else {
        NotAcrossBreak(r, key + "=", p, |s|);
      }
    }
  }

  /** A first match of the text keeps its value once a break follows. */
  lemma OtherKeyValueBeforeBreak(s: string, r: string, k2: string, q: nat)
    requires |s| < |r| && r[..|s|] == s && IsLineTerminator(r[|s|])
    requires FirstMatch(s, k2) == Some(q)
    requires forall p: nat :: p <= |s| ==> (MatchAt(r, k2, p) <==> MatchAt(s, k2, p))
    ensures ValueOf(r, k2) == ValueOf(s, k2)
  {
    FirstMatchIs(r, k2, q);
    var x := q + |k2| + 1;
    LineEndPrefix(s, r, |s|, x);
    var e := LineEnd(s, x);
    SliceOfHead(r, |s|, x, e);
    ValueAt(r, k2, q, e);
    ValueAt(s, k2, q, e);
  }

  lemma KeepsOtherKeyReplaced(s: string, k1: string, value: string, k2: string)
    requires NoLineBreak(k1 + "=" + value) && NoLineBreak(k1 + "=") && NoLineBreak(k2 + "=") && Distinct(k1, k2)
    requires FirstMatch(s, k1).Some?
    ensures ValueOf(Upsert(s, k1, value), k2) == ValueOf(s, k2)
  {
    var r := Upsert(s, k1, value);
    var l := k1 + "=" + value;
    var i := FirstMatch(s, k1).value;
    var j := LineEnd(s, i + |k1| + 1);
    assert l[..|k1| + 1] == k1 + "=";
    OtherKeyAfterReplace(s, r, k1, k2, l, i, j);
  }

  /** The same, for any text whose line at `i` up to `j` is replaced by a
      whole `k1=` line. */
  lemma OtherKeyAfterReplace(s: string, r: string, k1: string, k2: string, l: string, i: nat, j: nat)
    requires NoLineBreak(l) && NoLineBreak(k1 + "=") && NoLineBreak(k2 + "=") && Distinct(k1, k2)
    requires MatchAt(s, k1, i) && i + |k1| + 1 <= j <= |s|
    requires forall p :: i + |k1| + 1 <= p < j ==> !IsLineTerminator(s[p])
    requires |r| == i + |l| + |s| - j && r[..i] == s[..i] && r[i..i + |l|] == l && r[i + |l|..] == s[j..]
    requires |k1| + 1 <= |l| && l[..|k1| + 1] == k1 + "="
    ensures ValueOf(r, k2) == ValueOf(s, k2)
  {
    var t := i + |l|;
    MatchesBefore(s, r, k2, i);
    NoMatchInLine(r, k1, k2, l, i);
    ReplacedLineNoMatch(s, k1, k2, i, j);
    MatchesAfter(s, r, k2, j, t);
    if FirstMatch(s, k2).Some? {
      var q := FirstMatch(s, k2).value;
      if q < i {
        OtherKeyValueBefore(s, r, k2, i, q);
      } else {
        OtherKeyValueAfter(s, r, k2, j, t, q);
      }
    } else {
      FirstMatchNone(r, k2);
    }
  }

  /** The replaced line holds no match of another key. */
  lemma ReplacedLineNoMatch(s: string, k1: string, k2: string, i: nat, j: nat)
    requires NoLineBreak(k1 + "=") && Distinct(k1, k2)
    requires MatchAt(s, k1, i) && i + |k1| + 1 <= j <= |s|
    requires forall p :: i + |k1| + 1 <= p < j ==> !IsLineTerminator(s[p])
    ensures forall p: nat :: i <= p <= j ==> !MatchAt(s, k2, p)
  {
    forall p: nat | i <= p <= j ensures !MatchAt(s, k2, p) {
      if p == i {
        NoClashAt(s, k1, k2, p);
      } else if p - 1 < i + |k1| + 1 {
        assert s[p - 1] == s[i..i + |k1| + 1][p - 1 - i];
      }
    }
  }

  /** A first match before the point where the texts part keeps its value. */
  lemma OtherKeyValueBefore(s: string, r: string, k2: string, n: nat, q: nat)
    requires NoLineBreak(k2 + "=")
    requires 0 < n <= |s| && n <= |r| && s[..n] == r[..n] && IsLineTerminator(s[n - 1])
    requires FirstMatch(s, k2) == Some(q) && q < n
    requires forall p: nat :: p < n ==> (MatchAt(r, k2, p) <==> MatchAt(s, k2, p))
    ensures ValueOf(r, k2) == ValueOf(s, k2)
  {
    FirstMatchIs(r, k2, q);
    var x := q + |k2| + 1;
    NotAcrossBreak(s, k2 + "=", q, n - 1);
    LineEndPrefix(s, r, n, x);
    var e := LineEnd(s, x);
    SliceOfHead(r, n, x, e);
    SliceOfHead(s, n, x, e);
    ValueAt(r, k2, q, e);
    ValueAt(s, k2, q, e);
  }

  /** A first match in the common tail keeps its value, shifted. */
  lemma OtherKeyValueAfter(s: string, r: string, k2: string, j: nat, t: nat, q: nat)
    requires j <= |s| && t <= |r| && s[j..] == r[t..]
    requires FirstMatch(s, k2) == Some(q) && j < q
    requires forall p: nat :: p <= t ==> !MatchAt(r, k2, p)
    requires forall p: nat :: t < p <= |r| ==> (MatchAt(r, k2, p) <==> MatchAt(s, k2, p - t + j))
    ensures ValueOf(r, k2) == ValueOf(s, k2)
  {
    var q' := q - j + t;
    assert |s[j..]| == |r[t..]|;
    ShiftedFirstMatch(s, r, k2, j, t, q);
    var x := q + |k2| + 1;
    LineEndShift(s, r, j, t, x);
    var e := LineEnd(s, x);
    SliceOfTail(r, t, x - j + t, e - j + t);
    SliceOfTail(s, j, x, e);
    ValueAt(r, k2, q', e - j + t);
    ValueAt(s, k2, q, e);
  }

  /** The first match in the common tail is the first match, shifted. */
  lemma ShiftedFirstMatch(s: string, r: string, k2: string, j: nat, t: nat, q: nat)
    requires j <= |s| && t <= |r| && |s| - j == |r| - t
    requires FirstMatch(s, k2) == Some(q) && j < q
    requires forall p: nat :: p <= t ==> !MatchAt(r, k2, p)
    requires forall p: nat :: t < p <= |r| ==> (MatchAt(r, k2, p) <==> MatchAt(s, k2, p - t + j))
    ensures FirstMatch(r, k2) == Some(q - j + t)
  {
    var q' := q - j + t;
    assert MatchAt(r, k2, q');
    forall p: nat | p < q' ensures !MatchAt(r, k2, p) {
      if t < p {
        assert !MatchAt(s, k2, p - t + j);
      }
    }
    FirstMatchIs(r, k2, q');
  }

  // ------------------------------------------------------------ the update

  const TokenKey := "ODONTO_APIV3_TOKEN"
  const ExpiresKey := "ODONTO_APIV3_TOKEN_EXPIRES"
  const ConfigMissing := "[TOKEN] ODONTO_BASE_APIV3 / ODONTO_USER / ODONTO_PASS n\U{00E3}o configurados no .env"

  /** `ODONTO_APIV3_TOKEN=` is not a prefix of `ODONTO_APIV3_TOKEN_EXPIRES=`:
      the two keys never match the same line. */
  lemma KeysDistinct()
    ensures Distinct(TokenKey, ExpiresKey) && Distinct(ExpiresKey, TokenKey)
    ensures NoLineBreak(TokenKey) && NoLineBreak(ExpiresKey)
  {
    assert (TokenKey + "=")[18] != (ExpiresKey + "=")[18];
  }

  /** `ODONTO_BASE_APIV3`, `ODONTO_USER` and `ODONTO_PASS`, "" when unset. */
  datatype Config = Config(base: string, user: string, pass: string)

  /** `${base}/login?user=${user}&password=${pass}`, with nothing encoded. */
  function LoginUrl(c: Config): (url: string)
    ensures StartsWith(url, c.base + "/login?user=")
    ensures EndsWith(url, "&password=" + c.pass)
  {
    var prefix := c.base + "/login?user=";
    var url := prefix + c.user + "&password=" + c.pass;
    assert url[..|prefix|] == prefix;
    assert url[|url| - |"&password=" + c.pass|..] == "&password=" + c.pass;
    url
  }

  /** How a run ends: without a request, with the request's error, without
      a token (nothing is written), or with the new `.env` text. */
  datatype Update =
    | Skipped(message: string)
    | RequestFailed(message: string)
    | NoToken(body: JsVal)
    | Written(text: string)

  /** `AtualizaTokenOdonto`: `api` answers the login request and `content`
      is the `.env` text read before writing. */
  function Run(c: Config, api: string -> Outcome, content: string): (u: Update)
    ensures u.Skipped? <==> c.base == "" || c.user == "" || c.pass == ""
    ensures u.Written? <==>
      && c.base != "" && c.user != "" && c.pass != "" && api(LoginUrl(c)).Resolved?
      && Truthy(Prop(Or(api(LoginUrl(c)).reply.data, Obj(map[])), "token"))
    ensures u.RequestFailed? <==>
      c.base != "" && c.user != "" && c.pass != "" && api(LoginUrl(c)).Rejected?
    ensures u.RequestFailed? ==> u.message == api(LoginUrl(c)).message
    ensures u.NoToken? ==> u.body == Or(api(LoginUrl(c)).reply.data, Obj(map[]))
  {
    if c.base == "" || c.user == "" || c.pass == "" then Skipped(ConfigMissing)
    else
      match api(LoginUrl(c))
      case Rejected(_, message) => RequestFailed(message)
      case Resolved(reply) =>
        var body := Or(reply.data, Obj(map[]));
        var token, expiresIn := Prop(body, "token"), Prop(body, "expiresIn");
        if !Truthy(token) then NoToken(body)
        else
          var text := Upsert(content, TokenKey, ToStr(token));
          Written(if Truthy(expiresIn) then Upsert(text, ExpiresKey, ToStr(expiresIn)) else text)
  }

  /** What a written `.env` reads: the new token, and the new expiry when
      the answer has one, or else the expiry line it had. */
  lemma RunWrites(c: Config, api: string -> Outcome, content: string)
    requires Run(c, api, content).Written?
    requires var body := Or(api(LoginUrl(c)).reply.data, Obj(map[]));
      NoLineBreak(ToStr(Prop(body, "token"))) && NoLineBreak(ToStr(Prop(body, "expiresIn")))
    ensures var body := Or(api(LoginUrl(c)).reply.data, Obj(map[]));
      var text := Run(c, api, content).text;
      && ValueOf(text, TokenKey) == Some(ToStr(Prop(body, "token")))
      && ValueOf(text, ExpiresKey) ==
           if Truthy(Prop(body, "expiresIn")) then Some(ToStr(Prop(body, "expiresIn")))
           else ValueOf(content, ExpiresKey)
  {
    var body := Or(api(LoginUrl(c)).reply.data, Obj(map[]));
    var token, expiresIn := ToStr(Prop(body, "token")), ToStr(Prop(body, "expiresIn"));
    KeysDistinct();
    var text := Upsert(content, TokenKey, token);
    UpsertSetsValue(content, TokenKey, token);
    UpsertKeepsOtherKey(content, TokenKey, token, ExpiresKey);
    if Truthy(Prop(body, "expiresIn")) {
      UpsertSetsValue(text, ExpiresKey, expiresIn);
      UpsertKeepsOtherKey(text, ExpiresKey, expiresIn, TokenKey);
    }
  }
}
