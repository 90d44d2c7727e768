/** What the modules share: optional values, Python's string and tuple order, and
    the stable sort behind every `sorted(..., key=...)`. */
module Ordering {

  datatype Option<+T> = None | Some(value: T)

  /** One component of a tuple sort key. */
  datatype Atom = Num(n: int) | Text(s: string)

  type SortKey = seq<Atom>

  /** Strings compare by code point, a prefix first. */
  predicate TextLe(a: string, b: string) {
    a == "" || (b != "" && (a[0] < b[0] || (a[0] == b[0] && TextLe(a[1..], b[1..]))))
  }

  predicate AtomLe(x: Atom, y: Atom) {
    match (x, y)
    case (Num(m), Num(n)) => m <= n
    case (Num(_), Text(_)) => true
    case (Text(_), Num(_)) => false
    case (Text(s), Text(t)) => TextLe(s, t)
  }

  /** Tuples compare at their first differing component. */
  predicate KeyLe(a: SortKey, b: SortKey) {
    a == [] || (b != [] && (if a[0] == b[0] then KeyLe(a[1..], b[1..]) else AtomLe(a[0], b[0])))
  }

  lemma TextLeTotal(a: string, b: string)
    ensures TextLe(a, b) || TextLe(b, a)
    ensures TextLe(a, b) && TextLe(b, a) ==> a == b
  {
    if a != "" && b != "" && a[0] == b[0] {
      TextLeTotal(a[1..], b[1..]);
      assert a == [a[0]] + a[1..] && b == [b[0]] + b[1..];
    }
  }

  lemma TextLeTransitive(a: string, b: string, c: string)
    requires TextLe(a, b) && TextLe(b, c)
    ensures TextLe(a, c)
  {
    if a != "" && a[0] == b[0] == c[0] {
      TextLeTransitive(a[1..], b[1..], c[1..]);
    }
  }

  lemma KeyLeTotal(a: SortKey, b: SortKey)
    ensures KeyLe(a, b) || KeyLe(b, a)
    ensures KeyLe(a, b) && KeyLe(b, a) ==> a == b
  {
    if a != [] && b != [] {
      if a[0] == b[0] {
        KeyLeTotal(a[1..], b[1..]);
        assert a == [a[0]] + a[1..] && b == [b[0]] + b[1..];
      } else if a[0].Text? && b[0].Text? {
        TextLeTotal(a[0].s, b[0].s);
      }
    }
  }

  lemma KeyLeTransitive(a: SortKey, b: SortKey, c: SortKey)
    requires KeyLe(a, b) && KeyLe(b, c)
    ensures KeyLe(a, c)
  {
    if a != [] {
      if a[0] == b[0] == c[0] {
        KeyLeTransitive(a[1..], b[1..], c[1..]);
      } else if a[0] != b[0] && b[0] != c[0] && a[0].Text? && b[0].Text? && c[0].Text? {
        TextLeTransitive(a[0].s, b[0].s, c[0].s);
        TextLeTotal(a[0].s, b[0].s);
      }
    }
  }

  function Insert<T>(x: T, s: seq<T>, key: T -> SortKey): seq<T> {
    if s == [] || KeyLe(key(x), key(s[0])) then [x] + s else [s[0]] + Insert(x, s[1..], key)
  }

  /** `sorted(s, key=key)`: stable, because an earlier element is inserted in front
      of the later ones its key equals. */
  function SortBy<T>(s: seq<T>, key: T -> SortKey): seq<T> {
    if s == [] then [] else Insert(s[0], SortBy(s[1..], key), key)
  }

  ghost predicate SortedBy<T>(s: seq<T>, key: T -> SortKey) {
    forall i, j :: 0 <= i < j < |s| ==> KeyLe(key(s[i]), key(s[j]))
  }

  lemma {:induction false} InsertAdds<T>(x: T, s: seq<T>, key: T -> SortKey)
    ensures multiset(Insert(x, s, key)) == multiset(s) + multiset{x}
  {
    if !(s == [] || KeyLe(key(x), key(s[0]))) {
      InsertAdds(x, s[1..], key);
      assert s == [s[0]] + s[1..];
    }
  }

  lemma {:induction false} InsertSorts<T>(x: T, s: seq<T>, key: T -> SortKey)
    requires SortedBy(s, key)
    ensures SortedBy(Insert(x, s, key), key)
  {
    if s == [] || KeyLe(key(x), key(s[0])) {
      forall j | 0 <= j < |s| ensures KeyLe(key(x), key(s[j])) {
        HeadIsLeast(s, s[j], key);
        KeyLeTransitive(key(x), key(s[0]), key(s[j]));
      }
    } else {
      InsertSorts(x, s[1..], key);
      var rest := Insert(x, s[1..], key);
      forall j | 0 <= j < |rest| ensures KeyLe(key(s[0]), key(rest[j])) {
        InsertAdds(x, s[1..], key);
        KeyLeTotal(key(x), key(s[0]));
        assert rest[j] in multiset(rest);
        if rest[j] != x {
          assert rest[j] in s[1..];
          HeadIsLeast(s, rest[j], key);
        }
      }
    }
  }

  lemma {:induction false} SortByRearranges<T>(s: seq<T>, key: T -> SortKey)
    ensures multiset(SortBy(s, key)) == multiset(s)
  {
    if s != [] {
      SortByRearranges(s[1..], key);
      InsertAdds(s[0], SortBy(s[1..], key), key);
      assert s == [s[0]] + s[1..];
    }
  }

  lemma SameMultisetSameElements<T>(s: seq<T>, t: seq<T>)
    requires multiset(s) == multiset(t)
    ensures |s| == |t|
    ensures forall x :: x in s <==> x in t
  {
    assert |multiset(s)| == |multiset(t)|;
    forall x ensures x in s <==> x in t {
      assert x in s <==> x in multiset(s);
      assert x in t <==> x in multiset(t);
    }
  }

  lemma {:induction false} SortBySorts<T>(s: seq<T>, key: T -> SortKey)
    ensures SortedBy(SortBy(s, key), key)
    ensures multiset(SortBy(s, key)) == multiset(s)
    ensures |SortBy(s, key)| == |s|
    ensures forall x :: x in SortBy(s, key) <==> x in s
  {
    SortByRearranges(s, key);
    SameMultisetSameElements(SortBy(s, key), s);
    if s != [] {
      SortBySorts(s[1..], key);
      InsertSorts(s[0], SortBy(s[1..], key), key);
    }
  }

  lemma HeadIsLeast<T>(s: seq<T>, x: T, key: T -> SortKey)
    requires SortedBy(s, key) && x in s
    ensures KeyLe(key(s[0]), key(x))
  {
    KeyLeTotal(key(s[0]), key(s[0]));
  }

  /** Equal keys mean equal elements. */
  ghost predicate KeyedApart<T>(s: seq<T>, key: T -> SortKey) {
    forall i, j :: 0 <= i < |s| && 0 <= j < |s| && key(s[i]) == key(s[j]) ==> s[i] == s[j]
  }

  lemma SameTails<T>(a: seq<T>, b: seq<T>)
    requires a != [] && b != [] && a[0] == b[0] && multiset(a) == multiset(b)
    ensures multiset(a[1..]) == multiset(b[1..])
  {
    assert a == [a[0]] + a[1..] && b == [b[0]] + b[1..];
    assert multiset(a[1..]) == multiset(a) - multiset{a[0]};
    assert multiset(b[1..]) == multiset(b) - multiset{b[0]};
  }

  /** A sorted list is fixed by its elements when equal keys mean equal elements. */
  lemma {:induction false} SortedUnique<T>(a: seq<T>, b: seq<T>, key: T -> SortKey)
    requires SortedBy(a, key) && SortedBy(b, key) && multiset(a) == multiset(b)
    requires KeyedApart(a, key)
    ensures a == b
  {
    assert |a| == |multiset(a)| == |multiset(b)| == |b|;
    if a == [] {
      assert b == [];
    } else {
      assert a[0] in multiset(b) && b[0] in multiset(a);
      HeadIsLeast(a, b[0], key);
      HeadIsLeast(b, a[0], key);
      KeyLeTotal(key(a[0]), key(b[0]));
      var k :| 0 <= k < |a| && a[k] == b[0];
      assert key(a[0]) == key(a[k]);
      SameTails(a, b);
      SortedUnique(a[1..], b[1..], key);
      assert a == [a[0]] + a[1..] && b == [b[0]] + b[1..];
    }
  }

  function Filter<T>(s: seq<T>, p: T -> bool): seq<T> {
    if s == [] then [] else (if p(s[0]) then [s[0]] else []) + Filter(s[1..], p)
  }

  lemma {:induction false} FilterMember<T>(s: seq<T>, p: T -> bool, x: T)
    ensures x in Filter(s, p) <==> x in s && p(x)
  {
    if s != [] {
      FilterMember(s[1..], p, x);
      assert s == [s[0]] + s[1..];
    }
  }

  lemma {:induction false} FilterAppend<T>(s: seq<T>, t: seq<T>, p: T -> bool)
    ensures Filter(s + t, p) == Filter(s, p) + Filter(t, p)
  {
    if s == [] {
      assert s + t == t;
    } else {
      FilterAppend(s[1..], t, p);
      assert (s + t)[0] == s[0] && (s + t)[1..] == s[1..] + t;
      var head := if p(s[0]) then [s[0]] else [];
      assert head + (Filter(s[1..], p) + Filter(t, p)) == (head + Filter(s[1..], p)) + Filter(t, p);
    }
  }

  lemma {:induction false} InsertFilters<T>(x: T, s: seq<T>, key: T -> SortKey, p: T -> bool)
    requires SortedBy(s, key)
    ensures Filter(Insert(x, s, key), p) == if p(x) then Insert(x, Filter(s, p), key) else Filter(s, p)
  {
    var f := Filter(s, p);
    if s == [] || KeyLe(key(x), key(s[0])) {
      assert ([x] + s)[1..] == s;
      if f != [] {
        FilterMember(s, p, f[0]);
        var k :| 0 <= k < |s| && s[k] == f[0];
        if k > 0 { KeyLeTransitive(key(x), key(s[0]), key(s[k])); }
      }
      assert Filter([x] + s, p) == (if p(x) then [x] else []) + f;
    } else {
      InsertFilters(x, s[1..], key, p);
      var head, rest := if p(s[0]) then [s[0]] else [], Filter(s[1..], p);
      assert ([s[0]] + Insert(x, s[1..], key))[1..] == Insert(x, s[1..], key);
      assert Filter(Insert(x, s, key), p) == head + Filter(Insert(x, s[1..], key), p);
      if p(s[0]) {
        assert f[0] == s[0] && f[1..] == rest;
      } else {
        assert f == rest;
      }
    }
  }

  /** Sorting a sub-collection is the same as picking it out of the sorted whole. */
  lemma {:induction false} SortByFilters<T>(s: seq<T>, key: T -> SortKey, p: T -> bool)
    ensures Filter(SortBy(s, key), p) == SortBy(Filter(s, p), key)
  {
    if s != [] {
      SortByFilters(s[1..], key, p);
      SortBySorts(s[1..], key);
      InsertFilters(s[0], SortBy(s[1..], key), key, p);
      var f := Filter(s, p);
      if p(s[0]) {
        assert f[0] == s[0] && f[1..] == Filter(s[1..], p);
      } else {
        assert f == Filter(s[1..], p);
      }
    }
  }

  ghost predicate Distinct<T>(s: seq<T>) {
    forall i, j :: 0 <= i < j < |s| ==> s[i] != s[j]
  }

  lemma {:induction false} FilterDistinct<T>(s: seq<T>, p: T -> bool)
    requires Distinct(s)
    ensures Distinct(Filter(s, p))
  {
    if s != [] {
      FilterDistinct(s[1..], p);
      FilterMember(s[1..], p, s[0]);
    }
  }

  /** Multiplicity one is what it is to be distinct. */
  lemma {:induction false} DistinctMultiplicity<T>(s: seq<T>)
    ensures Distinct(s) <==> forall x :: multiset(s)[x] <= 1
  {
    if s != [] {
      DistinctMultiplicity(s[1..]);
      assert s == [s[0]] + s[1..];
      assert multiset(s) == multiset{s[0]} + multiset(s[1..]);
      if Distinct(s) {
        assert s[0] !in s[1..];
      } else if Distinct(s[1..]) {
        var i, j :| 0 <= i < j < |s| && s[i] == s[j];
        assert i == 0 && s[j] == s[1..][j - 1];
        assert s[0] in s[1..] && multiset(s[1..])[s[0]] >= 1;
        assert multiset(s)[s[0]] >= 2;
      } else {
        var x :| multiset(s[1..])[x] > 1;
        assert multiset(s)[x] > 1;
      }
    }
  }

  lemma SameMultisetDistinct<T>(s: seq<T>, t: seq<T>)
    requires multiset(s) == multiset(t) && Distinct(s)
    ensures Distinct(t)
  {
    DistinctMultiplicity(s);
    DistinctMultiplicity(t);
  }

  /** A list without repeats is no longer than the set it is drawn from is large. */
  lemma {:induction false} DistinctWithin<T>(s: seq<T>, all: set<T>)
    requires Distinct(s) && forall i :: 0 <= i < |s| ==> s[i] in all
    ensures |s| <= |all|
  {
    if s != [] {
      DistinctWithin(s[1..], all - {s[0]});
    }
  }

  /** Two lists without repeats and with the same elements are rearrangements. */
  lemma DistinctSameElements<T>(s: seq<T>, t: seq<T>)
    requires Distinct(s) && Distinct(t) && forall x :: x in s <==> x in t
    ensures multiset(s) == multiset(t)
  {
    DistinctMultiplicity(s);
    DistinctMultiplicity(t);
    forall x ensures multiset(s)[x] == multiset(t)[x] {
      assert x in s <==> x in multiset(s);
      assert x in t <==> x in multiset(t);
    }
  }

  /** `sorted(set)` of strings. */
  function SortedTexts(s: set<string>): (r: seq<string>)
    ensures forall x :: x in r <==> x in s
    ensures |r| == |s|
  {
    if s == {} then [] else
      LeastExists(s);
      var x :| LeastOf(x, s);
      LeastUnique(s, x);
      [x] + SortedTexts(s - {x})
  }

  predicate LeastOf(x: string, s: set<string>) {
    x in s && forall y :: y in s ==> TextLe(x, y)
  }

  lemma LeastUnique(s: set<string>, x: string)
    requires LeastOf(x, s)
    ensures forall z :: LeastOf(z, s) ==> z == x
  {
    hide TextLe;
    forall z | LeastOf(z, s) ensures z == x {
      TextLeTotal(x, z);
    }
  }

  lemma {:induction false} LeastExists(s: set<string>)
    requires s != {}
    ensures exists x :: LeastOf(x, s)
  {
    hide TextLe, LeastOf;
    var x :| x in s;
    if s == {x} {
      OnlyIsLeast(x);
    } else {
      LeastExists(s - {x});
      var z :| LeastOf(z, s - {x});
      LeastOfMore(s, x, z);
    }
  }

  lemma OnlyIsLeast(x: string)
    ensures LeastOf(x, {x})
  {
    TextLeTotal(x, x);
  }

  lemma LeastOfMore(s: set<string>, x: string, z: string)
    requires x in s && LeastOf(z, s - {x})
    ensures LeastOf(if TextLe(x, z) then x else z, s)
  {
    hide TextLe;
    TextLeTotal(x, x);
    TextLeTotal(x, z);
    if TextLe(x, z) {
      forall y | y in s && y != x ensures TextLe(x, y) { TextLeTransitive(x, z, y); }
    }
  }
}
