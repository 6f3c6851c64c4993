/** Option, Result and sums over finite maps and sequences. */
module Prelude {
  datatype Option<+T> = None | Some(value: T)

  datatype Error = NotFound | ForeignKey | Unauthorized | Crypto | Unavailable | InvalidInput

  datatype Result<+T> = Ok(value: T) | Err(error: Error)
}

/** `SUM(column)` over a table is the total of a finite map from row key to column value. */
module Sums {
  ghost function Total<K>(m: map<K, nat>): nat
    decreases m.Keys
  {
    if m.Keys == {} then 0
    else
      var k :| k in m;
      m[k] + Total(m - {k})
  }

  function Only<K, V>(m: map<K, V>, s: set<K>): map<K, V> {
    map k | k in m && k in s :: m[k]
  }

  lemma {:induction false} TotalRemove<K>(m: map<K, nat>, k: K)
    requires k in m
    ensures Total(m) == m[k] + Total(m - {k})
    decreases m.Keys
  {
    var p :| p in m && Total(m) == m[p] + Total(m - {p});
    if p != k {
      var both := m - {p} - {k};
      assert both == m - {k} - {p};
      TotalRemove(m - {p}, k);
      TotalRemove(m - {k}, p);
    }
  }

  lemma TotalAdd<K>(m: map<K, nat>, k: K, v: nat)
    requires k !in m
    ensures Total(m[k := v]) == Total(m) + v
  {
    TotalRemove(m[k := v], k);
    assert m[k := v] - {k} == m;
  }

  /** A table splits into the rows in `s` and the rows outside it. */
  lemma {:induction false} TotalSplit<K>(m: map<K, nat>, s: set<K>)
    ensures Total(m) == Total(Only(m, s)) + Total(m - s)
    decreases m.Keys
  {
    if m.Keys == {} {
      assert Only(m, s) == m && m - s == m;
    } else {
      var k :| k in m;
      TotalRemove(m, k);
      TotalSplit(m - {k}, s);
      if k in s {
        assert Only(m, s) - {k} == Only(m - {k}, s) && m - s == m - {k} - s;
        TotalRemove(Only(m, s), k);
      } else {
        assert Only(m, s) == Only(m - {k}, s) && m - s - {k} == m - {k} - s;
        TotalRemove(m - s, k);
      }
    }
  }

  lemma TotalUnion<K>(m: map<K, nat>, s: set<K>, r: set<K>)
    requires s !! r
    ensures Total(Only(m, s + r)) == Total(Only(m, s)) + Total(Only(m, r))
  {
    var both, left, right := Only(m, s + r), Only(m, s), Only(m, r);
    TotalSplit(both, s);
    assert Only(both, s) == left;
    assert both - s == right;
  }

  /** Fewer rows cannot sum to more. */
  lemma TotalSubset<K>(m: map<K, nat>, n: map<K, nat>)
    requires m.Keys <= n.Keys && forall k :: k in m ==> m[k] == n[k]
    ensures Total(m) <= Total(n)
  {
    TotalSplit(n, m.Keys);
    assert Only(n, m.Keys) == m;
  }

  /** Renaming rows along an injection does not change the sum. */
  lemma {:induction false} TotalRename<K, L>(m: map<K, nat>, n: map<L, nat>, f: map<K, L>)
    requires f.Keys == m.Keys && f.Values == n.Keys
    requires forall k, l :: k in f && l in f && f[k] == f[l] ==> k == l
    requires forall k :: k in f ==> m[k] == n[f[k]]
    ensures Total(m) == Total(n)
    decreases m.Keys
  {
    if m.Keys == {} {
      assert n.Keys == {};
    } else {
      var k :| k in m;
      TotalRemove(m, k);
      assert f[k] in f.Values;
      TotalRemove(n, f[k]);
      var g := f - {k};
      assert g.Values == (n - {f[k]}).Keys by {
        forall l | l in f.Values && l != f[k] ensures l in g.Values {
          var j :| j in f && f[j] == l;
          assert j in g && g[j] == l;
        }
      }
      TotalRename(m - {k}, n - {f[k]}, g);
    }
  }

  /** Rows that some row of `m` maps onto sum to at most the rows mapped onto them. */
  lemma {:induction false} TotalCovered<K, L>(m: map<K, nat>, n: map<L, nat>, f: map<K, L>)
    requires f.Keys == m.Keys && n.Keys <= f.Values
    requires forall k :: k in f && f[k] in n ==> m[k] == n[f[k]]
    ensures Total(n) <= Total(m)
    decreases n.Keys
  {
    if n.Keys != {} {
      var l :| l in n;
      var k :| k in f && f[k] == l;
      TotalRemove(n, l);
      TotalRemove(m, k);
      var g := f - {k};
      forall x | x in (n - {l}).Keys ensures x in g.Values {
        var j :| j in f && f[j] == x;
        assert j in g && g[j] == x;
      }
      TotalCovered(m - {k}, n - {l}, g);
    }
  }

  function SumSeq(s: seq<nat>): nat {
    if s == [] then 0 else s[0] + SumSeq(s[1..])
  }

  lemma {:induction false} SumSeqAppend(s: seq<nat>, t: seq<nat>)
    ensures SumSeq(s + t) == SumSeq(s) + SumSeq(t)
    decreases |s|
  {
    if s == [] {
      assert s + t == t;
    } else {
      assert (s + t)[1..] == s[1..] + t;
      SumSeqAppend(s[1..], t);
    }
  }

  lemma NonEmpty(s: set<int>)
    requires s != {}
    ensures exists x :: x in s
  {
    if forall x :: x !in s {
      assert false;
    }
  }

  /** The aggregate as SQLite computes it: one pass over the rows in any order. */
  method Sum<K(==)>(m: map<K, nat>) returns (v: nat)
    ensures v == Total(m)
  {
    v := 0;
    var rest := m;
    while rest.Keys != {}
      invariant v + Total(rest) == Total(m)
      decreases rest.Keys
    {
      var k :| k in rest;
      TotalRemove(rest, k);
      v := v + rest[k];
      rest := rest - {k};
    }
  }
}
