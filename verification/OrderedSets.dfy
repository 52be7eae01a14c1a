/** Sorted enumeration of finite sets: what `ORDER BY` and `keys.sort()` give. */
module OrderedSets {

  /** `less` is a strict total order on the elements of `s`. */
  ghost predicate Orders<T>(less: (T, T) -> bool, s: set<T>) {
    && (forall x, y | x in s && y in s && less(x, y) :: !less(y, x))
    && (forall x, y | x in s && y in s && x != y :: less(x, y) || less(y, x))
    && (forall x, y, z | x in s && y in s && z in s && less(x, y) && less(y, z) :: less(x, z))
  }

  ghost predicate StrictlySorted<T>(s: seq<T>, less: (T, T) -> bool) {
    forall i, j | 0 <= i < j < |s| :: less(s[i], s[j])
  }

  lemma {:induction false} LeastExists<T>(s: set<T>, less: (T, T) -> bool)
    requires Orders(less, s) && s != {}
    ensures exists x :: x in s && forall y | y in s && y != x :: less(x, y)
    decreases |s|
  {
    var a :| a in s;
    if s == {a} {
    } else {
      LeastExists(s - {a}, less);
      var b :| b in s - {a} && forall y | y in s - {a} && y != b :: less(b, y);
      var least := if less(a, b) then a else b;
      assert forall y | y in s && y != least :: less(least, y);
    }
  }

  function Sorted<T(==,!new)>(s: set<T>, less: (T, T) -> bool): (r: seq<T>)
    requires Orders(less, s)
    ensures StrictlySorted(r, less)
    ensures forall x :: x in r <==> x in s
    ensures |r| == |s|
    decreases |s|
  {
    if s == {} then []
    else
      LeastExists(s, less);
      var x :| x in s && forall y | y in s && y != x :: less(x, y);
      var rest := Sorted(s - {x}, less);
      assert forall j | 0 <= j < |rest| :: rest[j] in rest;
      [x] + rest
  }

  lemma NonEmptyHasMember<T>(s: seq<T>)
    ensures s != [] ==> exists x :: x in s
  {
    if s != [] {
      assert s[0] in s;
    }
  }

  /** A strictly sorted sequence is determined by its elements. */
  lemma {:induction false} SortedUnique<T>(a: seq<T>, b: seq<T>, less: (T, T) -> bool, s: set<T>)
    requires Orders(less, s) && StrictlySorted(a, less) && StrictlySorted(b, less)
    requires (forall x :: x in a <==> x in s) && (forall x :: x in b <==> x in s)
    ensures a == b
    decreases |a|
  {
    if a == [] {
      NonEmptyHasMember(b);
    } else {
      assert a[0] in s && a[0] in b;
      assert b[0] in a;
      assert a[0] == b[0];
      forall x
        ensures x in a[1..] <==> x in s - {a[0]}
        ensures x in b[1..] <==> x in s - {a[0]}
      {
        TailMembers(a, less, s, x);
        TailMembers(b, less, s, x);
      }
      SortedUnique(a[1..], b[1..], less, s - {a[0]});
      assert a == [a[0]] + a[1..];
      assert b == [b[0]] + b[1..];
    }
  }

  lemma TailMembers<T>(a: seq<T>, less: (T, T) -> bool, s: set<T>, x: T)
    requires Orders(less, s) && StrictlySorted(a, less) && a != []
    requires forall y :: y in a <==> y in s
    ensures x in a[1..] <==> x in a && x != a[0]
  {
    if x in a[1..] {
      var i :| 0 <= i < |a[1..]| && a[1..][i] == x;
      assert a[i + 1] == x && less(a[0], a[i + 1]);
    }
    if x in a && x != a[0] {
      var i :| 0 <= i < |a| && a[i] == x;
      assert a[1..][i - 1] == x;
    }
  }
}
