/** The supplier menu the dashboard derives from its data: the distinct supplier
    names (`new Set`), sorted by JavaScript's default `Array.prototype.sort`,
    behind the sentinel entry "all". */
module SupplierList {
  import opened JsValues
  import opened StringOrder
  import opened RowValidator

  /** The sentinel that stands for "no supplier filter". */
  const AllSuppliers: Value := Str("all")

  /** `data.map(item => item.SUPPLIER_NAME)`. */
  function Names(data: seq<Row>): (names: seq<Value>)
    requires forall i :: 0 <= i < |data| ==> data[i].Record?
    ensures |names| == |data|
    ensures forall i :: 0 <= i < |data| ==> names[i] == data[i].supplierName
  {
    seq(|data|, i requires 0 <= i < |data| => data[i].supplierName)
  }

  ghost predicate Distinct<T>(s: seq<T>)
  {
    forall i, j :: 0 <= i < j < |s| ==> s[i] != s[j]
  }

  /** The position of the first occurrence of `v` in `xs`. */
  function FirstIndex(xs: seq<Value>, v: Value): (k: nat)
    requires v in xs
    ensures k < |xs| && xs[k] == v && v !in xs[..k]
  {
    if xs[0] == v then 0
    else
      var k := FirstIndex(xs[1..], v);
      assert xs[..k + 1] == [xs[0]] + xs[1..][..k];
      k + 1
  }

  /** A position holding `v` with no earlier `v` is the first occurrence. */
  lemma FirstIndexUnique(xs: seq<Value>, v: Value, k: int)
    requires 0 <= k < |xs| && xs[k] == v && v !in xs[..k]
    ensures FirstIndex(xs, v) == k
  {
  }

  /** Appending an element does not move the first occurrence of an earlier value. */
  lemma FirstIndexPrefix(init: seq<Value>, last: Value, v: Value)
    requires v in init
    ensures FirstIndex(init + [last], v) == FirstIndex(init, v)
  {
    var k := FirstIndex(init, v);
    assert (init + [last])[..k] == init[..k];
    FirstIndexUnique(init + [last], v, k);
  }

  /** `[...new Set(xs)]`: each value once, in the order of its first occurrence
      (a Set compares with SameValueZero, which on these values is equality). */
  function Dedupe(xs: seq<Value>): (ys: seq<Value>)
    ensures Distinct(ys)
    ensures forall v :: v in ys <==> v in xs
  {
    if xs == [] then []
    else
      var init, last := xs[..|xs| - 1], xs[|xs| - 1];
      assert xs == init + [last];
      var ys := Dedupe(init);
      if last in ys then ys else ys + [last]
  }

  /** Each value of `ys` occurs in `xs`, first occurrences in the order of `ys`. */
  ghost predicate FirstOrdered(xs: seq<Value>, ys: seq<Value>)
  {
    && (forall v :: v in ys ==> v in xs)
    && forall i, j :: 0 <= i < j < |ys| ==>
         ys[i] in xs && ys[j] in xs && FirstIndex(xs, ys[i]) < FirstIndex(xs, ys[j])
  }

  /** Appending an element keeps the first-occurrence order of earlier values. */
  lemma OrderCarriesOver(init: seq<Value>, last: Value, ys: seq<Value>)
    requires FirstOrdered(init, ys)
    ensures FirstOrdered(init + [last], ys)
  {
    forall i, j | 0 <= i < j < |ys|
      ensures FirstIndex(init + [last], ys[i]) < FirstIndex(init + [last], ys[j])
    {
      FirstIndexPrefix(init, last, ys[i]);
      FirstIndexPrefix(init, last, ys[j]);
    }
  }

  /** A value first seen at the end occurs after every earlier value. */
  lemma OrderExtends(init: seq<Value>, last: Value, ys: seq<Value>)
    requires FirstOrdered(init, ys) && last !in init
    ensures FirstOrdered(init + [last], ys + [last])
  {
    var xs, zs := init + [last], ys + [last];
    OrderCarriesOver(init, last, ys);
    assert xs[..|init|] == init;
    FirstIndexUnique(xs, last, |init|);
    forall i, j | 0 <= i < j < |zs|
      ensures FirstIndex(xs, zs[i]) < FirstIndex(xs, zs[j])
    {
      assert zs[i] == ys[i] && ys[i] in ys;
      FirstIndexPrefix(init, last, ys[i]);
      if j < |ys| {
        assert zs[j] == ys[j];
      }
    }
  }

  /** The deduplicated values keep the order of their first occurrences. */
  lemma {:induction false} DedupeFirstOccurrenceOrder(xs: seq<Value>)
    ensures forall i, j :: 0 <= i < j < |Dedupe(xs)| ==>
      FirstIndex(xs, Dedupe(xs)[i]) < FirstIndex(xs, Dedupe(xs)[j])
  {
    DedupeFirstOrdered(xs);
  }

  /** Induction on the last element, following `Dedupe`'s own recursion. */
  lemma {:induction false} DedupeFirstOrdered(xs: seq<Value>)
    ensures FirstOrdered(xs, Dedupe(xs))
  {
    if xs != [] {
      var init, last := xs[..|xs| - 1], xs[|xs| - 1];
      assert xs == init + [last];
      DedupeFirstOrdered(init);
      if last in Dedupe(init) {
        OrderCarriesOver(init, last, Dedupe(init));
      } else {
        OrderExtends(init, last, Dedupe(init));
      }
    }
  }



  /** `s` is in ascending order of the strings the default sort compares. */
  ghost predicate Sorted(host: Host, s: seq<Value>)
  {
    forall i, j :: 0 <= i < j < |s| ==> LexLe(ToText(host, s[i]), ToText(host, s[j]))
  }

  /** Places `x` after every element of `s` whose string sorts no later than its own. */
  function Insert(host: Host, x: Value, s: seq<Value>): (r: seq<Value>)
    ensures multiset(r) == multiset(s) + multiset{x}
  {
    if s == [] then [x]
    else if LexLe(ToText(host, s[0]), ToText(host, x)) then
      assert s == [s[0]] + s[1..];
      [s[0]] + Insert(host, x, s[1..])
    else [x] + s
  }

  /** A stable sort by the strings the default sort compares: insertion sort,
      taking the elements in their original order. */
  function SortByText(host: Host, xs: seq<Value>): (r: seq<Value>)
    ensures multiset(r) == multiset(xs)
  {
    if xs == [] then []
    else
      assert xs == xs[..|xs| - 1] + [xs[|xs| - 1]];
      Insert(host, xs[|xs| - 1], SortByText(host, xs[..|xs| - 1]))
  }

  lemma SortedTail(host: Host, s: seq<Value>)
    requires s != [] && Sorted(host, s)
    ensures Sorted(host, s[1..])
  {
    forall i, j | 0 <= i < j < |s[1..]|
      ensures LexLe(ToText(host, s[1..][i]), ToText(host, s[1..][j]))
    {
      assert s[1..][i] == s[i + 1] && s[1..][j] == s[j + 1];
    }
  }

  /** The head of a sorted sequence sorts no later than any of its elements. */
  lemma SortedHeadLeast(host: Host, s: seq<Value>)
    requires s != [] && Sorted(host, s)
    ensures forall j :: 0 <= j < |s| ==> LexLe(ToText(host, s[0]), ToText(host, s[j]))
  {
    LexLeReflexive(ToText(host, s[0]));
  }

  /** Prefixing a sorted sequence with a value that sorts no later than any of
      its elements keeps it sorted. */
  lemma SortedCons(host: Host, y: Value, s: seq<Value>)
    requires Sorted(host, s)
    requires forall j :: 0 <= j < |s| ==> LexLe(ToText(host, y), ToText(host, s[j]))
    ensures Sorted(host, [y] + s)
  {
    var r := [y] + s;
    forall i, j | 0 <= i < j < |r|
      ensures LexLe(ToText(host, r[i]), ToText(host, r[j]))
    {
      assert r[j] == s[j - 1];
      if i > 0 {
        assert r[i] == s[i - 1];
      }
    }
  }

  /** A lower bound on `x` and on every element of `s` bounds every element of
      the insertion. */
  lemma InsertBound(host: Host, x: Value, s: seq<Value>, k: string)
    requires LexLe(k, ToText(host, x))
    requires forall j :: 0 <= j < |s| ==> LexLe(k, ToText(host, s[j]))
    ensures forall j :: 0 <= j < |Insert(host, x, s)| ==> LexLe(k, ToText(host, Insert(host, x, s)[j]))
  {
    var r := Insert(host, x, s);
    forall j | 0 <= j < |r|
      ensures LexLe(k, ToText(host, r[j]))
    {
      assert r[j] in multiset(r);
      if r[j] != x {
        assert r[j] in multiset(s);
        var m :| 0 <= m < |s| && s[m] == r[j];
      }
    }
  }

  lemma {:induction false} InsertSorted(host: Host, x: Value, s: seq<Value>)
    requires Sorted(host, s)
    ensures Sorted(host, Insert(host, x, s))
  {
    if s != [] {
      var kx, k0 := ToText(host, x), ToText(host, s[0]);
      SortedHeadLeast(host, s);
      if LexLe(k0, kx) {
        SortedTail(host, s);
        InsertSorted(host, x, s[1..]);
        assert forall j :: 0 <= j < |s[1..]| ==> LexLe(k0, ToText(host, s[1..][j])) by {
          forall j | 0 <= j < |s[1..]|
            ensures LexLe(k0, ToText(host, s[1..][j]))
          {
            assert s[1..][j] == s[j + 1];
          }
        }
        InsertBound(host, x, s[1..], k0);
        SortedCons(host, s[0], Insert(host, x, s[1..]));
      } else {
        LexLeTotal(k0, kx);
        forall j | 0 <= j < |s|
          ensures LexLe(kx, ToText(host, s[j]))
        {
          LexLeTransitive(kx, k0, ToText(host, s[j]));
        }
        SortedCons(host, x, s);
      }
    }
  }

  /** The sort puts its input in ascending order. */
  lemma {:induction false} SortByTextSorted(host: Host, xs: seq<Value>)
    ensures Sorted(host, SortByText(host, xs))
  {
    if xs != [] {
      SortByTextSorted(host, xs[..|xs| - 1]);
      InsertSorted(host, xs[|xs| - 1], SortByText(host, xs[..|xs| - 1]));
    }
  }

  /** The elements of `s` whose string is `t`, in their order in `s`. */
  function WithText(host: Host, s: seq<Value>, t: string): seq<Value>
  {
    if s == [] then []
    else (if ToText(host, s[0]) == t then [s[0]] else []) + WithText(host, s[1..], t)
  }

  lemma {:induction false} WithTextAppend(host: Host, a: seq<Value>, b: seq<Value>, t: string)
    ensures WithText(host, a + b, t) == WithText(host, a, t) + WithText(host, b, t)
  {
    if a == [] {
      assert a + b == b;
    } else {
      assert (a + b)[0] == a[0];
      assert (a + b)[1..] == a[1..] + b;
      WithTextAppend(host, a[1..], b, t);
    }
  }

  lemma {:induction false} WithTextNone(host: Host, s: seq<Value>, t: string)
    requires forall j :: 0 <= j < |s| ==> ToText(host, s[j]) != t
    ensures WithText(host, s, t) == []
  {
    if s != [] {
      WithTextNone(host, s[1..], t);
    }
  }

  lemma SplitLast(xs: seq<Value>)
    requires xs != []
    ensures xs == xs[..|xs| - 1] + [xs[|xs| - 1]]
  {
  }

  lemma AppendAssociative<T>(a: seq<T>, b: seq<T>, c: seq<T>)
    ensures a + (b + c) == (a + b) + c
  {
  }

  lemma WithTextCons(host: Host, y: Value, r: seq<Value>, t: string)
    ensures WithText(host, [y] + r, t) == (if ToText(host, y) == t then [y] else []) + WithText(host, r, t)
  {
    assert ([y] + r)[1..] == r;
  }

  lemma WithTextSingle(host: Host, x: Value, t: string)
    ensures WithText(host, [x], t) == if ToText(host, x) == t then [x] else []
  {
    assert [x][1..] == [];
  }

  /** Inserting `x` in front of elements that all sort strictly later than it
      adds it to its own string's group and to no other. */
  lemma InsertWithTextFront(host: Host, x: Value, s: seq<Value>, t: string)
    requires s != [] && !LexLe(ToText(host, s[0]), ToText(host, x))
    requires forall j :: 0 <= j < |s| ==> LexLe(ToText(host, s[0]), ToText(host, s[j]))
    ensures WithText(host, Insert(host, x, s), t)
         == WithText(host, s, t) + (if ToText(host, x) == t then [x] else [])
  {
    assert Insert(host, x, s) == [x] + s;
    WithTextAppend(host, [x], s, t);
    WithTextSingle(host, x, t);
    if ToText(host, x) == t {
      forall j | 0 <= j < |s|
        ensures ToText(host, s[j]) != t
      {
        assert LexLe(ToText(host, s[0]), ToText(host, s[j]));
      }
      WithTextNone(host, s, t);
    }
  }

  /** Inserting `x` behind the head passes the head's group through unchanged. */
  lemma InsertWithTextBehind(host: Host, x: Value, s: seq<Value>, t: string)
    requires s != [] && LexLe(ToText(host, s[0]), ToText(host, x))
    requires WithText(host, Insert(host, x, s[1..]), t)
          == WithText(host, s[1..], t) + (if ToText(host, x) == t then [x] else [])
    ensures WithText(host, Insert(host, x, s), t)
         == WithText(host, s, t) + (if ToText(host, x) == t then [x] else [])
  {
    var r := Insert(host, x, s[1..]);
    assert Insert(host, x, s) == [s[0]] + r;
    assert s == [s[0]] + s[1..];
    WithTextCons(host, s[0], r, t);
    WithTextCons(host, s[0], s[1..], t);
    var head := if ToText(host, s[0]) == t then [s[0]] else [];
    var rest, tail := WithText(host, s[1..], t), if ToText(host, x) == t then [x] else [];
    AppendAssociative(head, rest, tail);
  }

  lemma {:induction false} InsertWithText(host: Host, x: Value, s: seq<Value>, t: string)
    requires Sorted(host, s)
    ensures WithText(host, Insert(host, x, s), t)
         == WithText(host, s, t) + (if ToText(host, x) == t then [x] else [])
  {
    if s == [] {
      WithTextSingle(host, x, t);
    } else if LexLe(ToText(host, s[0]), ToText(host, x)) {
      SortedTail(host, s);
      InsertWithText(host, x, s[1..], t);
      InsertWithTextBehind(host, x, s, t);
    } else {
      SortedHeadLeast(host, s);
      InsertWithTextFront(host, x, s, t);
    }
  }

  /** One step of the sort keeps each group in order, given that the sort of
      all but the last element does. */
  lemma SortByTextStableStep(host: Host, xs: seq<Value>, t: string)
    requires xs != []
    requires WithText(host, SortByText(host, xs[..|xs| - 1]), t) == WithText(host, xs[..|xs| - 1], t)
    requires var last := xs[|xs| - 1];
      WithText(host, Insert(host, last, SortByText(host, xs[..|xs| - 1])), t)
      == WithText(host, SortByText(host, xs[..|xs| - 1]), t) + (if ToText(host, last) == t then [last] else [])
    ensures WithText(host, SortByText(host, xs), t) == WithText(host, xs, t)
  {
    var init, last := xs[..|xs| - 1], xs[|xs| - 1];
    var sorted := SortByText(host, init);
    assert SortByText(host, xs) == Insert(host, last, sorted);
    SplitLast(xs);
    WithTextAppend(host, init, [last], t);
    WithTextSingle(host, last, t);
  }

  /** The sort is stable: the elements that share one string keep their
      relative order. */
  lemma {:induction false} SortByTextStable(host: Host, xs: seq<Value>, t: string)
    ensures WithText(host, SortByText(host, xs), t) == WithText(host, xs, t)
  {
    if xs != [] {
      var init := xs[..|xs| - 1];
      SortByTextStable(host, init, t);
      SortByTextSorted(host, init);
      InsertWithText(host, xs[|xs| - 1], SortByText(host, init), t);
      SortByTextStableStep(host, xs, t);
    }
  }

  /** The values of `xs` other than `undefined`, in order. */
  function Defined(xs: seq<Value>): (r: seq<Value>)
    ensures Absent !in r
  {
    if xs == [] then []
    else (if xs[0] == Absent then [] else [xs[0]]) + Defined(xs[1..])
  }

  /** The `undefined` entries of `xs`. */
  function Undefined(xs: seq<Value>): (r: seq<Value>)
    ensures forall v :: v in r ==> v == Absent
  {
    if xs == [] then []
    else (if xs[0] == Absent then [xs[0]] else []) + Undefined(xs[1..])
  }

  lemma {:induction false} SplitPreservesElements(xs: seq<Value>)
    ensures multiset(Defined(xs)) + multiset(Undefined(xs)) == multiset(xs)
  {
    if xs != [] {
      SplitPreservesElements(xs[1..]);
      assert xs == [xs[0]] + xs[1..];
    }
  }

  /** The default sort of `xs`: `undefined` entries go last, whatever their
      string; the others are stably sorted by their strings. */
  function SortMenu(host: Host, xs: seq<Value>): (menu: seq<Value>)
    ensures multiset(menu) == multiset(xs)
  {
    SplitPreservesElements(xs);
    SortByText(host, Defined(xs)) + Undefined(xs)
  }

  /** Menu order: an `undefined` entry is never followed by another value, and
      any two other values are in ascending order of their strings. */
  ghost predicate MenuOrdered(host: Host, s: seq<Value>)
  {
    forall i, j :: 0 <= i < j < |s| ==>
      s[j] == Absent || (s[i] != Absent && LexLe(ToText(host, s[i]), ToText(host, s[j])))
  }

  /** The menu sort leaves its input in menu order. */
  lemma SortMenuOrdered(host: Host, xs: seq<Value>)
    ensures MenuOrdered(host, SortMenu(host, xs))
  {
    var sorted, undef := SortByText(host, Defined(xs)), Undefined(xs);
    SortByTextSorted(host, Defined(xs));
    assert forall k :: 0 <= k < |sorted| ==> sorted[k] != Absent by {
      forall k | 0 <= k < |sorted|
        ensures sorted[k] != Absent
      {
        assert sorted[k] in multiset(sorted);
        assert sorted[k] in Defined(xs);
      }
    }
    assert forall k :: 0 <= k < |undef| ==> undef[k] == Absent by {
      forall k | 0 <= k < |undef|
        ensures undef[k] == Absent
      {
        assert undef[k] in undef;
      }
    }
    var r := SortMenu(host, xs);
    forall i, j | 0 <= i < j < |r|
      ensures r[j] == Absent || (r[i] != Absent && LexLe(ToText(host, r[i]), ToText(host, r[j])))
    {
      if j < |sorted| {
        assert r[i] == sorted[i] && r[j] == sorted[j];
      } else {
        assert r[j] == undef[j - |sorted|];
      }
    }
  }

  lemma {:induction false} DistinctCounts<T>(s: seq<T>)
    ensures Distinct(s) <==> forall v :: multiset(s)[v] <= 1
  {
    if s != [] {
      DistinctCounts(s[1..]);
      assert s == [s[0]] + s[1..];
      if Distinct(s) {
        assert s[0] !in s[1..] by {
          forall j | 0 <= j < |s[1..]|
            ensures s[1..][j] != s[0]
          {
            assert s[1..][j] == s[j + 1];
          }
        }
        assert Distinct(s[1..]) by {
          forall i, j | 0 <= i < j < |s[1..]|
            ensures s[1..][i] != s[1..][j]
          {
            assert s[1..][i] == s[i + 1] && s[1..][j] == s[j + 1];
          }
        }
      } else {
        var i, j :| 0 <= i < j < |s| && s[i] == s[j];
        if i == 0 {
          assert s[j] == s[1..][j - 1];
          assert multiset(s[1..])[s[0]] >= 1;
          assert multiset(s)[s[0]] >= 2;
        } else {
          assert s[1..][i - 1] == s[1..][j - 1];
          assert !Distinct(s[1..]);
          var v :| multiset(s[1..])[v] > 1;
          assert multiset(s)[v] > 1;
        }
      }
    }
  }

  /** A reordering of distinct values is distinct. */
  lemma PermutationDistinct<T>(a: seq<T>, b: seq<T>)
    requires multiset(a) == multiset(b)
    requires Distinct(a)
    ensures Distinct(b)
  {
    DistinctCounts(a);
    DistinctCounts(b);
  }

  /** `['all', ...uniqueSuppliers.sort()]`. */
  function Suppliers(host: Host, data: seq<Row>): (menu: seq<Value>)
    requires forall i :: 0 <= i < |data| ==> data[i].Record?
    ensures |menu| >= 1 && menu[0] == AllSuppliers
  {
    [AllSuppliers] + SortMenu(host, Dedupe(Names(data)))
  }

  /** After the sentinel, every supplier name in the data appears, and nothing else. */
  lemma SuppliersListed(host: Host, data: seq<Row>, v: Value)
    requires forall i :: 0 <= i < |data| ==> data[i].Record?
    ensures v in Suppliers(host, data)[1..] <==> exists i :: 0 <= i < |data| && data[i].supplierName == v
  {
    var names := Names(data);
    var unique := Dedupe(names);
    var menu := SortMenu(host, unique);
    assert Suppliers(host, data)[1..] == menu;
    assert v in menu <==> v in multiset(menu);
    assert v in unique <==> v in multiset(unique);
    NamesCover(data, v);
  }

  /** A value is among the names exactly when some row carries it. */
  lemma NamesCover(data: seq<Row>, v: Value)
    requires forall i :: 0 <= i < |data| ==> data[i].Record?
    ensures v in Names(data) <==> exists i :: 0 <= i < |data| && data[i].supplierName == v
  {
    var names := Names(data);
    if v in names {
      var i :| 0 <= i < |names| && names[i] == v;
      assert data[i].supplierName == v;
    }
    if exists i :: 0 <= i < |data| && data[i].supplierName == v {
      var i :| 0 <= i < |data| && data[i].supplierName == v;
      assert names[i] == v;
    }
  }

  /** After the sentinel, each supplier name appears exactly once. */
  lemma SuppliersDistinct(host: Host, data: seq<Row>)
    requires forall i :: 0 <= i < |data| ==> data[i].Record?
    ensures Distinct(Suppliers(host, data)[1..])
  {
    var unique := Dedupe(Names(data));
    assert Suppliers(host, data)[1..] == SortMenu(host, unique);
    PermutationDistinct(unique, SortMenu(host, unique));
  }

  /** After the sentinel, the names are in the default sort's ascending order. */
  lemma SuppliersOrdered(host: Host, data: seq<Row>)
    requires forall i :: 0 <= i < |data| ==> data[i].Record?
    ensures MenuOrdered(host, Suppliers(host, data)[1..])
  {
    SortMenuOrdered(host, Dedupe(Names(data)));
    assert Suppliers(host, data)[1..] == SortMenu(host, Dedupe(Names(data)));
  }

  /** A supplier whose name is the string "all" is listed twice: once as the
      sentinel and once among the names. */
  lemma SupplierNamedAllListedTwice(host: Host, data: seq<Row>, i: int)
    requires forall i :: 0 <= i < |data| ==> data[i].Record?
    requires 0 <= i < |data| && data[i].supplierName == AllSuppliers
    ensures multiset(Suppliers(host, data))[AllSuppliers] == 2
  {
    var menu := Suppliers(host, data);
    SuppliersListed(host, data, AllSuppliers);
    SuppliersDistinct(host, data);
    DistinctCounts(menu[1..]);
    assert menu == [AllSuppliers] + menu[1..];
  }
}
