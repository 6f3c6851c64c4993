/** `path LIKE 'prefix%'` as SQLite evaluates it: no escape character, ASCII case folded. */
module Like {
  function Fold(c: char): char {
    if 'A' <= c <= 'Z' then c + 32 as char else c
  }

  /** Folding identifies exactly a letter of the ASCII alphabet with its other case. */
  lemma FoldIff(c: char, d: char)
    ensures Fold(c) == Fold(d)
            <==> c == d || ('A' <= c <= 'Z' && d as int == c as int + 32)
                 || ('A' <= d <= 'Z' && c as int == d as int + 32)
  {
  }

  predicate Like(pattern: string, s: string)
    decreases |pattern| + |s|
  {
    if pattern == [] then s == []
    else if pattern[0] == '%' then Like(pattern[1..], s) || (s != [] && Like(pattern, s[1..]))
    else s != [] && (pattern[0] == '_' || Fold(pattern[0]) == Fold(s[0])) && Like(pattern[1..], s[1..])
  }

  /** The filter of `Entries::list`. */
  predicate PrefixFilter(prefix: string, path: string) {
    Like(prefix + "%", path)
  }

  predicate Wild(c: char) {
    c == '%' || c == '_'
  }

  predicate StartsWithFolded(path: string, prefix: string) {
    |prefix| <= |path| && forall i :: 0 <= i < |prefix| ==> Fold(prefix[i]) == Fold(path[i])
  }

  /** `path` begins with `prefix`, reading each wildcard of the prefix as any one character. */
  predicate Covers(prefix: string, path: string) {
    |prefix| <= |path| && forall i :: 0 <= i < |prefix| ==> Wild(prefix[i]) || Fold(prefix[i]) == Fold(path[i])
  }

  lemma {:induction false} PercentMatchesAll(s: string)
    ensures Like("%", s)
    decreases |s|
  {
    assert "%"[1..] == [];
    if s != [] {
      PercentMatchesAll(s[1..]);
    }
  }

  lemma {:induction false} CoveredPathsMatch(prefix: string, path: string)
    requires Covers(prefix, path)
    ensures PrefixFilter(prefix, path)
    decreases |prefix|
  {
    if prefix == [] {
      assert prefix + "%" == "%";
      PercentMatchesAll(path);
    } else {
      CoveredPathsMatch(prefix[1..], path[1..]);
      assert (prefix + "%")[1..] == prefix[1..] + "%";
      if prefix[0] == '%' {
        assert Like(prefix + "%", path[1..]);
      }
    }
  }

  /** Every path that starts with the prefix is listed, even when the prefix contains wildcards. */
  lemma StartingPathsMatch(prefix: string, path: string)
    requires prefix <= path
    ensures PrefixFilter(prefix, path)
  {
    CoveredPathsMatch(prefix, path);
  }

  lemma {:induction false} PlainPrefix(prefix: string, path: string)
    requires forall i :: 0 <= i < |prefix| ==> !Wild(prefix[i])
    ensures PrefixFilter(prefix, path) <==> StartsWithFolded(path, prefix)
    decreases |prefix|
  {
    if prefix == [] {
      assert prefix + "%" == "%";
      PercentMatchesAll(path);
    } else {
      assert (prefix + "%")[1..] == prefix[1..] + "%";
      if path != [] {
        PlainPrefix(prefix[1..], path[1..]);
        if StartsWithFolded(path[1..], prefix[1..]) && Fold(prefix[0]) == Fold(path[0]) {
          forall i | 0 <= i < |prefix| ensures Fold(prefix[i]) == Fold(path[i]) {
            if i > 0 {
              assert Fold(prefix[1..][i - 1]) == Fold(path[1..][i - 1]);
            }
          }
        }
        if StartsWithFolded(path, prefix) {
          assert forall i :: 0 <= i < |prefix| - 1 ==> Fold(prefix[1..][i]) == Fold(path[1..][i]);
        }
      }
    }
  }

  /** A path that differs from the prefix exactly at one of its wildcards. */
  lemma WildcardOvermatches(prefix: string, i: nat)
    requires i < |prefix| && Wild(prefix[i])
    ensures PrefixFilter(prefix, prefix[i := 'x']) && !StartsWithFolded(prefix[i := 'x'], prefix)
  {
    CoveredPathsMatch(prefix, prefix[i := 'x']);
    assert Fold(prefix[i]) != Fold(prefix[i := 'x'][i]);
  }

  /**
   The filter selects exactly the paths that start with the prefix, up to ASCII case, if and only if the prefix
   contains neither wildcard.
   */
  lemma FilterIsPrefixIff(prefix: string)
    ensures (forall path :: PrefixFilter(prefix, path) <==> StartsWithFolded(path, prefix))
            <==> (forall i :: 0 <= i < |prefix| ==> !Wild(prefix[i]))
  {
    if i :| 0 <= i < |prefix| && Wild(prefix[i]) {
      WildcardOvermatches(prefix, i);
    } else {
      forall path ensures PrefixFilter(prefix, path) <==> StartsWithFolded(path, prefix) {
        PlainPrefix(prefix, path);
      }
    }
  }
}
