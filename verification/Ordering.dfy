/** `ORDER BY column, id` as a strict total order on ranks, and the sorted list of a set of ranks. */
module Ordering {
  /** A sort value. Integers sort before text, as SQLite orders storage classes. */
  datatype SortValue = Num(n: int) | Text(s: string)

  /** The value a row is sorted by, with the row id as tie-breaker. */
  datatype Rank = Rank(key: SortValue, id: int)

  /** Byte order on text. */
  predicate TextLess(a: string, b: string) {
    if b == [] then false
    else if a == [] then true
    else a[0] < b[0] || (a[0] == b[0] && TextLess(a[1..], b[1..]))
  }

  predicate KeyLess(a: SortValue, b: SortValue) {
    match (a, b)
    case (Num(x), Num(y)) => x < y
    case (Num(_), Text(_)) => true
    case (Text(_), Num(_)) => false
    case (Text(x), Text(y)) => TextLess(x, y)
  }

  /** `a` comes strictly before `b` in the requested direction. */
  predicate Before(a: Rank, b: Rank, desc: bool) {
    if desc then KeyLess(b.key, a.key) || (a.key == b.key && b.id < a.id)
    else KeyLess(a.key, b.key) || (a.key == b.key && a.id < b.id)
  }

  /** At the first character where they differ `a` has the smaller one, or `a` ends there and `b` goes on. */
  predicate DiffersAt(a: string, b: string, n: nat) {
    && n <= |a| && n < |b| && a[..n] == b[..n]
    && (n == |a| || a[n] < b[n])
  }

  lemma {:induction false} TextLessIff(a: string, b: string)
    ensures TextLess(a, b) <==> exists n: nat :: DiffersAt(a, b, n)
    decreases |a|
  {
    if a != [] && b != [] && a[0] == b[0] {
      TextLessIff(a[1..], b[1..]);
      if n: nat :| DiffersAt(a[1..], b[1..], n) {
        assert a[..n + 1] == [a[0]] + a[1..][..n] && b[..n + 1] == [b[0]] + b[1..][..n];
        assert DiffersAt(a, b, n + 1);
      }
      if n: nat :| DiffersAt(a, b, n) {
        assert a[1..][..n - 1] == a[..n][1..] && b[1..][..n - 1] == b[..n][1..];
        assert DiffersAt(a[1..], b[1..], n - 1);
      }
    } else if b != [] && (a == [] || a[0] < b[0]) {
      assert DiffersAt(a, b, 0);
    } else {
      forall n: nat ensures !DiffersAt(a, b, n) {
        NotLess(a, b, n);
      }
    }
  }

  lemma NotLess(a: string, b: string, n: nat)
    requires b == [] || (a != [] && b[0] < a[0])
    ensures !DiffersAt(a, b, n)
  {
    if 0 < n <= |a| && n <= |b| {
      assert a[..n][0] == a[0] && b[..n][0] == b[0];
    }
  }

  lemma {:induction false} TextLessTotal(a: string, b: string)
    ensures !(TextLess(a, b) && TextLess(b, a))
    ensures TextLess(a, b) || TextLess(b, a) || a == b
    ensures a == b ==> !TextLess(a, b)
    decreases |a|
  {
    if a != [] && b != [] {
      TextLessTotal(a[1..], b[1..]);
      assert a == [a[0]] + a[1..] && b == [b[0]] + b[1..];
    }
  }

  lemma {:induction false} TextLessTransitive(a: string, b: string, c: string)
    requires TextLess(a, b) && TextLess(b, c)
    ensures TextLess(a, c)
    decreases |a|
  {
    if a != [] && a[0] == b[0] && b[0] == c[0] {
      TextLessTransitive(a[1..], b[1..], c[1..]);
    }
  }

  /** The order is total, irreflexive and antisymmetric for every pair of ranks. */
  lemma BeforeTotal(a: Rank, b: Rank, desc: bool)
    ensures !(Before(a, b, desc) && Before(b, a, desc))
    ensures Before(a, b, desc) || Before(b, a, desc) || a == b
    ensures a == b ==> !Before(a, b, desc)
  {
    if a.key.Text? && b.key.Text? {
      TextLessTotal(a.key.s, b.key.s);
    }
  }

  lemma BeforeTransitive(a: Rank, b: Rank, c: Rank, desc: bool)
    requires Before(a, b, desc) && Before(b, c, desc)
    ensures Before(a, c, desc)
  {
    if a.key.Text? && b.key.Text? && c.key.Text? {
      if TextLess(a.key.s, b.key.s) && TextLess(b.key.s, c.key.s) {
        TextLessTransitive(a.key.s, b.key.s, c.key.s);
      }
      if TextLess(c.key.s, b.key.s) && TextLess(b.key.s, a.key.s) {
        TextLessTransitive(c.key.s, b.key.s, a.key.s);
      }
    }
  }

  ghost predicate StrictlySorted(s: seq<Rank>, desc: bool) {
    forall i, j :: 0 <= i < j < |s| ==> Before(s[i], s[j], desc)
  }

  ghost function Elements<T>(s: seq<T>): set<T> {
    set x | x in s
  }

  lemma {:induction false} FirstExists(s: set<Rank>, desc: bool)
    requires s != {}
    ensures exists m :: m in s && forall x | x in s :: x == m || Before(m, x, desc)
    decreases |s|
  {
    var p :| p in s;
    if s == {p} {
      assert p in s && forall x | x in s :: x == p || Before(p, x, desc);
    } else {
      FirstExists(s - {p}, desc);
      var m :| m in s - {p} && forall x | x in s - {p} :: x == m || Before(m, x, desc);
      BeforeTotal(p, m, desc);
      if Before(p, m, desc) {
        forall x | x in s ensures x == p || Before(p, x, desc) {
          if x != p && x != m {
            BeforeTransitive(p, m, x, desc);
          }
        }
        assert p in s && forall x | x in s :: x == p || Before(p, x, desc);
      } else {
        assert m in s && forall x | x in s :: x == m || Before(m, x, desc);
      }
    }
  }

  function First(s: set<Rank>, desc: bool): (m: Rank)
    requires s != {}
    ensures m in s && forall x | x in s :: x == m || Before(m, x, desc)
  {
    FirstExists(s, desc);
    assert forall a, b | a in s && b in s && Before(a, b, desc) :: !Before(b, a, desc) by {
      forall a, b | a in s && b in s ensures Before(a, b, desc) ==> !Before(b, a, desc) {
        BeforeTotal(a, b, desc);
      }
    }
    var m :| m in s && forall x | x in s :: x == m || Before(m, x, desc);
    m
  }

  /** The rows of `s` in `ORDER BY` order: strictly sorted, each row once, nothing else. */
  function Sorted(s: set<Rank>, desc: bool): (r: seq<Rank>)
    ensures StrictlySorted(r, desc)
    ensures Elements(r) == s
    ensures |r| == |s|
    decreases |s|
  {
    if s == {} then []
    else
      var m := First(s, desc);
      var rest := Sorted(s - {m}, desc);
      SortedStep(s, m, rest, desc);
      [m] + rest
  }

  lemma SortedStep(s: set<Rank>, m: Rank, rest: seq<Rank>, desc: bool)
    requires m in s && forall x :: x in s ==> x == m || Before(m, x, desc)
    requires StrictlySorted(rest, desc) && Elements(rest) == s - {m} && |rest| == |s - {m}|
    ensures StrictlySorted([m] + rest, desc) && Elements([m] + rest) == s && |[m] + rest| == |s|
  {
    forall i | 0 <= i < |rest| ensures Before(m, rest[i], desc) {
      assert rest[i] in Elements(rest);
    }
    forall x ensures x in [m] + rest <==> x in s {
      assert x in [m] + rest <==> x == m || x in Elements(rest);
    }
  }

  /** A strictly sorted list is determined by its elements. */
  lemma {:induction false} SortedUnique(a: seq<Rank>, b: seq<Rank>, desc: bool)
    requires StrictlySorted(a, desc) && StrictlySorted(b, desc)
    requires Elements(a) == Elements(b)
    ensures a == b
    decreases |a|
  {
    assert b != [] ==> b[0] in Elements(b);
    if a != [] {
      assert a[0] in Elements(b);
      assert b[0] in Elements(a);
      var i :| 0 <= i < |b| && b[i] == a[0];
      var j :| 0 <= j < |a| && a[j] == b[0];
      BeforeTotal(a[0], b[0], desc);
      assert a[0] == b[0];
      TailElements(a, desc);
      TailElements(b, desc);
      SortedUnique(a[1..], b[1..], desc);
      assert a == [a[0]] + a[1..] && b == [b[0]] + b[1..];
    }
  }

  lemma TailElements(a: seq<Rank>, desc: bool)
    requires a != [] && StrictlySorted(a, desc)
    ensures Elements(a[1..]) == Elements(a) - {a[0]}
    ensures StrictlySorted(a[1..], desc)
  {
    forall i | 0 < i < |a| ensures a[i] != a[0] {
      BeforeTotal(a[0], a[i], desc);
    }
    forall x | x in Elements(a) && x != a[0] ensures x in a[1..] {
      var i :| 0 <= i < |a| && a[i] == x;
      assert a[1..][i - 1] == x;
    }
  }

  /** The elements of a list that are not in `drop`, in order. */
  ghost function Without<T(!new)>(s: seq<T>, drop: set<T>): (r: seq<T>)
    ensures forall x :: x in r <==> x in s && x !in drop
  {
    if s == [] then []
    else (if s[0] in drop then [] else [s[0]]) + Without(s[1..], drop)
  }

  /** Deleting rows from the set deletes them from the sorted list and moves nothing else. */
  lemma {:induction false} SortedWithout(s: set<Rank>, drop: set<Rank>, desc: bool)
    ensures Sorted(s - drop, desc) == Without(Sorted(s, desc), drop)
  {
    WithoutSorted(Sorted(s, desc), drop, desc);
    assert Elements(Without(Sorted(s, desc), drop)) == s - drop by {
      forall x ensures x in Elements(Without(Sorted(s, desc), drop)) <==> x in s - drop {
        assert x in s <==> x in Elements(Sorted(s, desc));
      }
    }
    SortedUnique(Sorted(s - drop, desc), Without(Sorted(s, desc), drop), desc);
  }

  lemma {:induction false} WithoutSorted(s: seq<Rank>, drop: set<Rank>, desc: bool)
    requires StrictlySorted(s, desc)
    ensures StrictlySorted(Without(s, drop), desc)
  {
    if s != [] {
      WithoutSorted(s[1..], drop, desc);
      var rest := Without(s[1..], drop);
      forall x | x in rest ensures Before(s[0], x, desc) {
        var i :| 0 <= i < |s[1..]| && s[1..][i] == x;
        assert s[i + 1] == x;
      }
    }
  }
}
