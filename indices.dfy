/** List indices written as text: the decimal text of an integer, reading
    it back, and the values of a mapping keyed by list indices in index
    order. */
module Indices {
  /** The decimal digit `d`. */
  function Digit(d: nat): char
    requires d < 10
  {
    ('0' as int + d) as char
  }

  /** The value of a decimal digit, 0 for any other character. */
  function DigitValue(ch: char): nat {
    if '0' <= ch <= '9' then ch as int - '0' as int else 0
  }

  /** The number a string of decimal digits denotes. */
  function NatOfText(s: string): nat {
    if s == [] then 0 else NatOfText(s[..|s| - 1]) * 10 + DigitValue(s[|s| - 1])
  }

  /** The number an optionally signed string of decimal digits denotes. */
  function IntOfText(s: string): int {
    if |s| > 0 && s[0] == '-' then -(NatOfText(s[1..]) as int) else NatOfText(s)
  }

  /** The decimal text of a natural number, without leading zeros. */
  function NatText(n: nat): (s: string)
    ensures |s| > 0 && s[0] != '-'
    ensures NatOfText(s) == n
  {
    if n < 10 then [Digit(n)]
    else
      var s := NatText(n / 10) + [Digit(n % 10)];
      assert s[..|s| - 1] == NatText(n / 10);
      s
  }

  /** The decimal text of an integer, as `unicode(n)` writes it. */
  function IntText(n: int): (s: string)
    ensures IntOfText(s) == n
  {
    if n < 0 then
      var s := "-" + NatText(-n);
      assert s[1..] == NatText(-n);
      s
    else NatText(n)
  }

  /** A key `unicode(int(k))` gives back: the text of a list index. */
  predicate IsIndexKey(k: string) {
    k == IntText(IntOfText(k))
  }

  /** The indices the keys of a mapping denote. */
  function IntsOf<T>(f: map<string, T>): set<int> {
    set k | k in f :: IntOfText(k)
  }

  /** The values of a mapping keyed by list indices, in the order of the
      indices (`[value[unicode(k)] for k in sorted(map(int, value.keys()))]`). */
  function IndexedItems<T>(f: map<string, T>): (r: seq<T>)
    requires forall k :: k in f ==> IsIndexKey(k)
    ensures |r| == |f|
  {
    var ks := Ascending(IntsOf(f));
    IndexKeysPresent(f);
    seq(|ks|, i requires 0 <= i < |ks| => f[IntText(ks[i])])
  }

  /** Every index a mapping keyed by list indices holds is the text of a key. */
  lemma IndexKeysPresent<T>(f: map<string, T>)
    requires forall k :: k in f ==> IsIndexKey(k)
    ensures forall n :: n in IntsOf(f) ==> IntText(n) in f
    ensures |IntsOf(f)| == |f|
  {
    var ints := IntsOf(f);
    forall n | n in ints ensures IntText(n) in f {
      var k :| k in f && IntOfText(k) == n;
    }
    SameSize(f.Keys, ints);
  }

  /** A set of keys and the set of their indices have the same size, since
      `IntText` gives each key back from its index. */
  lemma {:induction false} SameSize(keys: set<string>, ints: set<int>)
    requires forall k :: k in keys ==> IsIndexKey(k)
    requires ints == set k | k in keys :: IntOfText(k)
    ensures |ints| == |keys|
    decreases |keys|
  {
    if keys != {} {
      var k :| k in keys;
      var rest := set k' | k' in keys - {k} :: IntOfText(k');
      assert ints == rest + {IntOfText(k)};
      assert IntOfText(k) !in rest;
      SameSize(keys - {k}, rest);
    }
  }

  /** The elements of a finite set of integers in ascending order. */
  function Ascending(s: set<int>): (ks: seq<int>)
    ensures |ks| == |s|
    ensures forall i :: 0 <= i < |ks| ==> ks[i] in s
    ensures forall n :: n in s ==> n in ks
    ensures forall i, j :: 0 <= i < j < |ks| ==> ks[i] < ks[j]
    decreases |s|
  {
    if s == {} then []
    else
      LeastExists(s);
      var n :| n in s && forall n' :: n' in s ==> n <= n';
      var rest := Ascending(s - {n});
      PrependLeast(s, n, rest);
      [n] + rest
  }

  /** Putting the least element of `s` before the rest of `s` in ascending
      order gives all of `s` in ascending order. */
  lemma PrependLeast(s: set<int>, n: int, rest: seq<int>)
    requires n in s && forall n' :: n' in s ==> n <= n'
    requires |rest| == |s - {n}|
    requires forall i :: 0 <= i < |rest| ==> rest[i] in s - {n}
    requires forall n' :: n' in s - {n} ==> n' in rest
    requires forall i, j :: 0 <= i < j < |rest| ==> rest[i] < rest[j]
    ensures var ks := [n] + rest;
            && |ks| == |s|
            && (forall i :: 0 <= i < |ks| ==> ks[i] in s)
            && (forall n' :: n' in s ==> n' in ks)
            && (forall i, j :: 0 <= i < j < |ks| ==> ks[i] < ks[j])
  {
    var ks := [n] + rest;
    assert |s - {n}| == |s| - 1;
    forall n' | n' in s ensures n' in ks {
      if n' != n {
        assert n' in s - {n};
        var i :| 0 <= i < |rest| && rest[i] == n';
        assert ks[i + 1] == n';
      }
    }
    forall i, j | 0 <= i < j < |ks| ensures ks[i] < ks[j] {
      assert ks[j] == rest[j - 1] && rest[j - 1] in s - {n};
      if i > 0 {
        assert ks[i] == rest[i - 1];
      }
    }
  }

  /** A non-empty finite set of integers has a least element. */
  lemma {:induction false} LeastExists(s: set<int>)
    requires s != {}
    ensures exists n :: n in s && forall n' :: n' in s ==> n <= n'
    decreases |s|
  {
    if forall x :: x !in s {
      assert false;
    }
    var n :| n in s;
    if s - {n} == {} {
      forall n' | n' in s ensures n <= n' {
        assert n' !in s - {n};
      }
    } else {
      LeastExists(s - {n});
      var m :| m in s - {n} && forall n' :: n' in s - {n} ==> m <= n';
      var least := if n <= m then n else m;
      forall n' | n' in s ensures least <= n' {
        if n' != n {
          assert n' in s - {n};
        }
      }
      assert least in s;
    }
  }

  /** The mapping that keys each element of `xs` by the text of its index. */
  function IndexedMap<T>(xs: seq<T>): map<string, T> {
    if xs == [] then map[]
    else IndexedMap(xs[..|xs| - 1])[IntText(|xs| - 1) := xs[|xs| - 1]]
  }

  /** The mapping of a list has one key per element, the text of its index,
      holding that element, and no other key. */
  lemma {:induction false} IndexedMapKeys<T>(xs: seq<T>)
    ensures |IndexedMap(xs)| == |xs|
    ensures forall i :: 0 <= i < |xs| ==> IntText(i) in IndexedMap(xs) && IndexedMap(xs)[IntText(i)] == xs[i]
    ensures forall k :: k in IndexedMap(xs) ==> IsIndexKey(k) && 0 <= IntOfText(k) < |xs|
    decreases |xs|
  {
    if xs != [] {
      var init := xs[..|xs| - 1];
      var g := IndexedMap(init);
      IndexedMapKeys(init);
      var last := IntText(|xs| - 1);
      assert IntOfText(last) == |xs| - 1;
      assert last !in g;
      forall i | 0 <= i < |xs| ensures IntText(i) in IndexedMap(xs) && IndexedMap(xs)[IntText(i)] == xs[i] {
        if i < |init| {
          assert IntOfText(IntText(i)) == i;
          assert xs[i] == init[i];
        }
      }
    }
  }

  /** Reading the mapping of a list by its indices gives back the list. */
  lemma IndexedRoundTrip<T>(xs: seq<T>)
    ensures forall k :: k in IndexedMap(xs) ==> IsIndexKey(k)
    ensures IndexedItems(IndexedMap(xs)) == xs
  {
    var f := IndexedMap(xs);
    IndexedMapKeys(xs);
    var ks := Ascending(IntsOf(f));
    IndicesInOrder(xs);
    var r := IndexedItems(f);
    forall i | 0 <= i < |xs| ensures r[i] == xs[i] {
      assert ks[i] == i;
    }
  }

  /** The indices of the mapping of a list, in ascending order, are
      0, 1, … up to the length of the list. */
  lemma IndicesInOrder<T>(xs: seq<T>)
    ensures var ks := Ascending(IntsOf(IndexedMap(xs)));
            |ks| == |xs| && forall i :: 0 <= i < |ks| ==> ks[i] == i
  {
    var f := IndexedMap(xs);
    IndexedMapKeys(xs);
    IndexKeysPresent(f);
    var ks := Ascending(IntsOf(f));
    assert forall i :: 0 <= i < |ks| ==> 0 <= ks[i] < |xs|;
    AtLeastIndex(ks, |xs|);
    AtMostIndex(ks, |xs|);
  }

  /** A strictly ascending sequence of natural numbers is at least its indices. */
  lemma {:induction false} AtLeastIndex(ks: seq<int>, n: nat)
    requires forall i :: 0 <= i < |ks| ==> 0 <= ks[i] < n
    requires forall i, j :: 0 <= i < j < |ks| ==> ks[i] < ks[j]
    ensures forall i :: 0 <= i < |ks| ==> ks[i] >= i
    decreases |ks|
  {
    if |ks| > 0 {
      AtLeastIndex(ks[..|ks| - 1], n);
      assert forall i :: 0 <= i < |ks| - 1 ==> ks[i] == ks[..|ks| - 1][i];
      if |ks| > 1 {
        assert ks[|ks| - 2] >= |ks| - 2 && ks[|ks| - 2] < ks[|ks| - 1];
      }
    }
  }

  /** A strictly ascending sequence of `n` numbers below `n` is at most its
      indices. */
  lemma {:induction false} AtMostIndex(ks: seq<int>, n: nat)
    requires |ks| == n
    requires forall i :: 0 <= i < |ks| ==> 0 <= ks[i] < n
    requires forall i, j :: 0 <= i < j < |ks| ==> ks[i] < ks[j]
    ensures forall i :: 0 <= i < |ks| ==> ks[i] <= i
  {
    forall i | 0 <= i < |ks| ensures ks[i] <= i {
      AtMostFrom(ks, n, i);
    }
  }

  lemma {:induction false} AtMostFrom(ks: seq<int>, n: nat, i: nat)
    requires |ks| == n && i < n
    requires forall j :: 0 <= j < |ks| ==> 0 <= ks[j] < n
    requires forall j, k :: 0 <= j < k < |ks| ==> ks[j] < ks[k]
    ensures ks[i] <= i
    decreases n - i
  {
    if i < n - 1 {
      AtMostFrom(ks, n, i + 1);
    }
  }
}
