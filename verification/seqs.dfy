/** Generic sequence combinators for the `map`/`filter` calls the source makes
    on row arrays, with the facts about them that the model's lemmas use. */
module Seqs {
  import opened Wrappers

  /** `s.map(f)`. */
  function Map<A, B>(f: A -> B, s: seq<A>): (r: seq<B>)
    ensures |r| == |s|
    ensures forall i :: 0 <= i < |s| ==> r[i] == f(s[i])
  {
    seq(|s|, i requires 0 <= i < |s| => f(s[i]))
  }

  /** Mapping distributes over concatenation. */
  lemma MapAppend<A, B>(f: A -> B, a: seq<A>, b: seq<A>)
    ensures Map(f, a + b) == Map(f, a) + Map(f, b)
  {
    var l, r := Map(f, a + b), Map(f, a) + Map(f, b);
    forall i | 0 <= i < |l| ensures l[i] == r[i] {
      if i < |a| {
        assert (a + b)[i] == a[i];
      } else {
        assert (a + b)[i] == b[i - |a|];
      }
    }
  }

  /** `s.filter(p)`: the elements satisfying `p`, in their order. */
  function Filter<A>(p: A -> bool, s: seq<A>): (r: seq<A>)
    ensures |r| <= |s|
    ensures forall x :: x in r ==> x in s && p(x)
  {
    if s == [] then []
    else if p(s[0]) then [s[0]] + Filter(p, s[1..])
    else Filter(p, s[1..])
  }

  /** Filtering distributes over concatenation. */
  lemma {:induction false} FilterAppend<A>(p: A -> bool, a: seq<A>, b: seq<A>)
    ensures Filter(p, a + b) == Filter(p, a) + Filter(p, b)
  {
    if a == [] {
      assert a + b == b;
    } else {
      assert (a + b)[1..] == a[1..] + b;
      FilterAppend(p, a[1..], b);
    }
  }

  /** An element that satisfies `p` is kept: `filter` loses nothing it should
      keep. */
  lemma {:induction false} FilterKeeps<A>(p: A -> bool, s: seq<A>, x: A)
    requires x in s && p(x)
    ensures x in Filter(p, s)
  {
    if s[0] != x {
      assert x in s[1..];
      FilterKeeps(p, s[1..], x);
    }
  }

  /** The number of elements of `s` that satisfy `p`. */
  function Count<A>(p: A -> bool, s: seq<A>): (n: nat)
    ensures n <= |s|
  {
    if s == [] then 0 else (if p(s[0]) then 1 else 0) + Count(p, s[1..])
  }

  /** `filter` keeps exactly `Count` elements. */
  lemma {:induction false} FilterCount<A>(p: A -> bool, s: seq<A>)
    ensures |Filter(p, s)| == Count(p, s)
  {
    if s != [] {
      FilterCount(p, s[1..]);
    }
  }

  /** `s[i]` is the first element of `s` satisfying `p`. */
  predicate FirstAt<A>(p: A -> bool, s: seq<A>, i: int) {
    0 <= i < |s| && p(s[i]) && forall j :: 0 <= j < i ==> !p(s[j])
  }

  /** `s.findIndex(p)`. */
  function FindIndex<A>(p: A -> bool, s: seq<A>): (i: int)
    ensures -1 <= i < |s|
    ensures i == -1 <==> forall j :: 0 <= j < |s| ==> !p(s[j])
    ensures i >= 0 ==> FirstAt(p, s, i)
  {
    if s == [] then -1
    else if p(s[0]) then 0
    else
      var i := FindIndex(p, s[1..]);
      assert forall j :: 1 <= j < |s| ==> s[j] == s[1..][j - 1];
      if i < 0 then -1 else i + 1
  }

  /** `s.find(p)`: the first element satisfying `p`, if any. */
  function FindFirst<A>(p: A -> bool, s: seq<A>): (r: Option<A>)
    ensures r.None? <==> forall i :: 0 <= i < |s| ==> !p(s[i])
    ensures r.Some? ==> exists i :: FirstAt(p, s, i) && s[i] == r.value
  {
    var i := FindIndex(p, s);
    if i < 0 then None else Some(s[i])
  }

  // ------------------------------------------------------------ group by key

  /** A group of a `Map<key, items[]>` built by pushing items one by one. */
  datatype Group<K, A> = Group(key: K, items: seq<A>)

  /** Position of the group keyed `k`, or -1. */
  function KeyIndex<K(==), A>(gs: seq<Group<K, A>>, k: K): (i: int)
    ensures -1 <= i < |gs|
    ensures i >= 0 ==> gs[i].key == k
    ensures i == -1 <==> forall j :: 0 <= j < |gs| ==> gs[j].key != k
  {
    if gs == [] then -1
    else if gs[|gs| - 1].key == k then |gs| - 1
    else KeyIndex(gs[..|gs| - 1], k)
  }

  /** `if (!m.has(k)) m.set(k, []); m.get(k).push(x)`: a new key opens a
      group at the end, in insertion order. */
  function AddItem<K(==), A>(key: A -> K, gs: seq<Group<K, A>>, x: A): (r: seq<Group<K, A>>)
    ensures |r| == |gs| || |r| == |gs| + 1
  {
    var k := key(x);
    var i := KeyIndex(gs, k);
    if i < 0 then gs + [Group(k, [x])] else gs[i := Group(k, gs[i].items + [x])]
  }

  /** The loop that pushes every element into the group of its key. */
  function GroupBy<K(==), A>(key: A -> K, s: seq<A>): (gs: seq<Group<K, A>>)
    ensures |gs| <= |s|
  {
    if s == [] then [] else AddItem(key, GroupBy(key, s[..|s| - 1]), s[|s| - 1])
  }

  /** The elements whose key is `k`, in their order. */
  function WithKey<K(==), A>(key: A -> K, s: seq<A>, k: K): seq<A> {
    Filter((x: A) => key(x) == k, s)
  }

  /** An element is among those with key `k` exactly when its key is `k`. */
  lemma WithKeyMembership<K, A>(key: A -> K, s: seq<A>, k: K, x: A)
    requires x in s
    ensures x in WithKey(key, s, k) <==> key(x) == k
  {
    if key(x) == k {
      FilterKeeps((y: A) => key(y) == k, s, x);
    }
  }

  ghost predicate DistinctKeys<K, A>(gs: seq<Group<K, A>>) {
    forall i, j :: 0 <= i < j < |gs| ==> gs[i].key != gs[j].key
  }

  /** `gs` partitions `s` by `key`: distinct keys, each group non-empty and
      holding exactly the elements with its key in their order, and a group
      for every element's key. */
  ghost predicate Partitions<K, A>(key: A -> K, gs: seq<Group<K, A>>, s: seq<A>) {
    && DistinctKeys(gs)
    && (forall i :: 0 <= i < |gs| ==> gs[i].items == WithKey(key, s, gs[i].key))
    && (forall i :: 0 <= i < |gs| ==> gs[i].items != [])
    && (forall x :: x in s ==> KeyIndex(gs, key(x)) >= 0)
  }

  /** Adding one element keeps the keys distinct. */
  lemma AddItemDistinct<K, A>(key: A -> K, gs: seq<Group<K, A>>, x: A)
    requires DistinctKeys(gs)
    ensures DistinctKeys(AddItem(key, gs, x))
  {
    var r := AddItem(key, gs, x);
    var i := KeyIndex(gs, key(x));
    if i >= 0 {
      assert forall j :: 0 <= j < |gs| ==> r[j].key == gs[j].key;
    }
  }

  /** Nothing is kept when no element qualifies. */
  lemma {:induction false} FilterNone<A>(p: A -> bool, s: seq<A>)
    requires forall x :: x in s ==> !p(x)
    ensures Filter(p, s) == []
  {
    if s != [] {
      assert forall x :: x in s[1..] ==> x in s;
      FilterNone(p, s[1..]);
    }
  }

  /** Adding one element extends exactly the group of its key. */
  lemma AddItemContents<K, A>(key: A -> K, gs: seq<Group<K, A>>, s: seq<A>, x: A)
    requires Partitions(key, gs, s)
    ensures var r := AddItem(key, gs, x);
      forall j :: 0 <= j < |r| ==> r[j].items == WithKey(key, s + [x], r[j].key)
  {
    var r := AddItem(key, gs, x);
    var k := key(x);
    var i := KeyIndex(gs, k);
    forall j | 0 <= j < |r| ensures r[j].items == WithKey(key, s + [x], r[j].key) {
      var p := (y: A) => key(y) == r[j].key;
      FilterAppend(p, s, [x]);
      assert Filter(p, [x]) == if p(x) then [x] else [] by {
        assert [x][1..] == [];
      }
      if j == |gs| {
        assert r[j] == Group(k, [x]);
        forall y | y in s ensures !p(y) {
          assert KeyIndex(gs, key(y)) >= 0;
        }
        FilterNone(p, s);
      } else if r[j].key == k {
        assert r[j].items == gs[j].items + [x];
      } else {
        assert r[j] == gs[j];
      }
    }
  }

  /** Adding one element keeps every group non-empty and gives every
      element's key a group. */
  lemma AddItemCovers<K, A>(key: A -> K, gs: seq<Group<K, A>>, s: seq<A>, x: A)
    requires Partitions(key, gs, s)
    ensures var r := AddItem(key, gs, x);
      && (forall j :: 0 <= j < |r| ==> r[j].items != [])
      && (forall y :: y in s + [x] ==> KeyIndex(r, key(y)) >= 0)
  {
    var r := AddItem(key, gs, x);
    var k := key(x);
    var i := KeyIndex(gs, k);
    forall y | y in s + [x] ensures KeyIndex(r, key(y)) >= 0 {
      if y in s {
        var iy := KeyIndex(gs, key(y));
        assert r[iy].key == key(y);
      } else if i < 0 {
        assert r[|gs|].key == k;
      } else {
        assert r[i].key == k;
      }
    }
  }

  lemma {:induction false} GroupByPartitions<K, A>(key: A -> K, s: seq<A>)
    ensures Partitions(key, GroupBy(key, s), s)
  {
    if s != [] {
      var init, last := s[..|s| - 1], s[|s| - 1];
      assert s == init + [last];
      GroupByPartitions(key, init);
      var gs := GroupBy(key, init);
      AddItemDistinct(key, gs, last);
      AddItemContents(key, gs, init, last);
      AddItemCovers(key, gs, init, last);
    }
  }
}
