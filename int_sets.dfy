/**
 * Finite sets of integers as the source's TreeMaps see them: the largest key, the keys in
 * ascending order, and Integer.toString on naturals.
 */
module IntSets {

  /** A set is empty or has an element. */
  lemma EmptyOrInhabited(s: set<int>)
    ensures s == {} || exists y :: y in s
  {
    if forall y :: y !in s {
      assert forall y :: y in s <==> y in {};
    }
  }

  /** `m` is the largest element of `s`. */
  predicate IsMax(s: set<int>, m: int)
  {
    m in s && forall x :: x in s ==> x <= m
  }

  /** Every nonempty finite set of integers has a largest element. */
  lemma {:induction false} HasMaximum(s: set<int>)
    requires s != {}
    ensures exists m :: IsMax(s, m)
    decreases |s|
  {
    EmptyOrInhabited(s);
    var y :| y in s;
    var rest := s - {y};
    assert |rest| < |s|;
    if rest == {} {
      assert IsMax(s, y) by {
        forall x | x in s ensures x <= y {
          assert x == y || x in rest;
        }
      }
    } else {
      HasMaximum(rest);
      var m :| IsMax(rest, m);
      var top := if y <= m then m else y;
      assert IsMax(s, top) by {
        forall x | x in s ensures x <= top {
          assert x == y || x in rest;
        }
      }
    }
  }

  /** The largest element of a nonempty set. */
  function Max(s: set<int>): (m: int)
    requires s != {}
    ensures IsMax(s, m)
  {
    HasMaximum(s);
    var m :| IsMax(s, m);
    m
  }

  predicate Increasing(xs: seq<int>)
  {
    forall i, j :: 0 <= i < j < |xs| ==> xs[i] < xs[j]
  }

  /** The elements of `s` in ascending order: the iteration order of a TreeMap's key set. */
  function SortedKeys(s: set<int>): (r: seq<int>)
    ensures Increasing(r)
    ensures |r| == |s|
    ensures forall x :: x in r <==> x in s
    decreases |s|
  {
    if s == {} then []
    else
      var m := Max(s);
      var rest := SortedKeys(s - {m});
      assert forall x :: x in rest ==> x < m;
      rest + [m]
  }

  /** A nonempty sequence holds its last element. */
  lemma LastIn(xs: seq<int>)
    ensures |xs| > 0 ==> xs[|xs| - 1] in xs
  {
  }

  /** An increasing sequence is determined by its elements. */
  lemma {:induction false} IncreasingUnique(xs: seq<int>, ys: seq<int>)
    requires Increasing(xs) && Increasing(ys)
    requires forall x :: x in xs <==> x in ys
    ensures xs == ys
    decreases |xs|
  {
    LastIn(xs);
    LastIn(ys);
    if |xs| > 0 && |ys| > 0 {
      var a, b := xs[|xs| - 1], ys[|ys| - 1];
      var j :| 0 <= j < |xs| && xs[j] == b;
      assert b <= a;
      var k :| 0 <= k < |ys| && ys[k] == a;
      assert a <= b;
      var xs', ys' := xs[..|xs| - 1], ys[..|ys| - 1];
      forall x ensures x in xs' <==> x in ys' {
        if x in xs' {
          var i :| 0 <= i < |xs'| && xs'[i] == x;
          assert x < a && x in ys;
          var i' :| 0 <= i' < |ys| && ys[i'] == x;
          assert i' < |ys| - 1;
          assert ys'[i'] == x;
        }
        if x in ys' {
          var i :| 0 <= i < |ys'| && ys'[i] == x;
          assert x < b && x in xs;
          var i' :| 0 <= i' < |xs| && xs[i'] == x;
          assert i' < |xs| - 1;
          assert xs'[i'] == x;
        }
      }
      IncreasingUnique(xs', ys');
      assert xs == xs' + [a];
      assert ys == ys' + [b];
    }
  }

  /** Integer.toString of a natural number. */
  function NatToString(n: nat): (s: string)
    ensures |s| > 0
    ensures forall i :: 0 <= i < |s| ==> '0' <= s[i] <= '9'
    decreases n
  {
    if n < 10 then [Digit(n)] else NatToString(n / 10) + [Digit(n % 10)]
  }

  function Digit(d: nat): (c: char)
    requires d < 10
    ensures '0' <= c <= '9'
  {
    "0123456789"[d]
  }

  /** The value a string of decimal digits denotes. */
  function DecimalValue(s: string): nat
    requires forall i :: 0 <= i < |s| ==> '0' <= s[i] <= '9'
  {
    if s == [] then 0
    else 10 * DecimalValue(s[..|s| - 1]) + ((s[|s| - 1] as int) - ('0' as int))
  }

  /** Reading back the decimal string of `n` yields `n`. */
  lemma {:induction false} DecimalRoundTrip(n: nat)
    ensures DecimalValue(NatToString(n)) == n
    decreases n
  {
    var s := NatToString(n);
    if n < 10 {
      assert s[..|s| - 1] == [];
    } else {
      DecimalRoundTrip(n / 10);
      assert s[..|s| - 1] == NatToString(n / 10);
    }
  }

  /** Distinct numbers have distinct decimal strings. */
  lemma NatToStringInjective(m: nat, n: nat)
    requires m != n
    ensures NatToString(m) != NatToString(n)
  {
    DecimalRoundTrip(m);
    DecimalRoundTrip(n);
  }
}
