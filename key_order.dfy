/** The ordering of names and the two reorderings the configuration uses.

    Rust compares `String`s byte by byte in their UTF-8 encoding, a shorter
    string coming before any longer string it is a prefix of. UTF-8 preserves
    the order of code points, so comparing the `char`s of a `string` in
    sequence gives the same order. */
module KeyOrder {
  import opened IndexMaps

  /** `a < b` for Rust strings: lexicographic, a proper prefix first. */
  predicate StrLess(a: string, b: string) {
    if |a| == 0 then |b| > 0
    else if |b| == 0 then false
    else if a[0] != b[0] then a[0] < b[0]
    else StrLess(a[1..], b[1..])
  }

  lemma {:induction false} StrLessIrreflexive(a: string)
    ensures !StrLess(a, a)
  {
    if |a| > 0 { StrLessIrreflexive(a[1..]); }
  }

  lemma {:induction false} StrLessTransitive(a: string, b: string, c: string)
    requires StrLess(a, b) && StrLess(b, c)
    ensures StrLess(a, c)
  {
    if |a| > 0 && |b| > 0 && |c| > 0 && a[0] == b[0] && b[0] == c[0] {
      StrLessTransitive(a[1..], b[1..], c[1..]);
    }
  }

  lemma {:induction false} StrLessTotal(a: string, b: string)
    requires a != b
    ensures StrLess(a, b) || StrLess(b, a)
  {
    if |a| > 0 && |b| > 0 && a[0] == b[0] {
      assert a == [a[0]] + a[1..] && b == [b[0]] + b[1..];
      StrLessTotal(a[1..], b[1..]);
    }
  }

  /** Two names that agree up to position `i` and differ there are ordered
      by the characters at `i`. */
  lemma {:induction false} StrLessAt(a: string, b: string, i: nat)
    requires i < |a| && i < |b| && a[..i] == b[..i] && a[i] < b[i]
    ensures StrLess(a, b)
    decreases i
  {
    if i > 0 {
      assert a[0] == a[..i][0] == b[..i][0] == b[0];
      assert a[1..][..i - 1] == a[..i][1..] == b[..i][1..] == b[1..][..i - 1];
      StrLessAt(a[1..], b[1..], i - 1);
    }
  }

  /** Every name comes strictly before every later one. */
  predicate Ascending(s: seq<string>) {
    forall i, j :: 0 <= i < j < |s| ==> StrLess(s[i], s[j])
  }

  /** Every two neighbours that both lie in `scope` are in ascending order. */
  predicate NeighboursAscendingIn(s: seq<string>, scope: set<string>) {
    forall i :: 0 <= i < |s| - 1 && s[i] in scope && s[i + 1] in scope ==> StrLess(s[i], s[i + 1])
  }

  /** The comparison that `sort_aliases_in_group` hands to `sort_by`:
      it orders two names only when both lie in scope, and calls every other
      pair equal. */
  predicate LessInScope(a: string, b: string, scope: set<string>) {
    a in scope && b in scope && StrLess(a, b)
  }

  /** One step of insertion sort: `x` moves left past the neighbours it is
      less than, and stops at the first it is not less than. */
  function InsertFromBack(r: seq<string>, x: string, scope: set<string>): (res: seq<string>)
    decreases |r|
  {
    if r == [] || !LessInScope(x, r[|r| - 1], scope) then r + [x]
    else InsertFromBack(r[..|r| - 1], x, scope) + [r[|r| - 1]]
  }

  /** Stable insertion sort under `LessInScope`, the behaviour of Rust's
      `sort_by` on the short slices a configuration holds. */
  function SortInScope(s: seq<string>, scope: set<string>): (res: seq<string>)
    decreases |s|
  {
    if s == [] then [] else InsertFromBack(SortInScope(s[..|s| - 1], scope), s[|s| - 1], scope)
  }

  lemma {:induction false} InsertFromBackFacts(r: seq<string>, x: string, scope: set<string>)
    ensures var res := InsertFromBack(r, x, scope);
      && |res| == |r| + 1
      && multiset(res) == multiset(r) + multiset{x}
      && (x !in scope ==> res == r + [x])
      && (forall i :: 0 <= i < |r| && r[i] !in scope ==> res[i] == r[i])
      && (res[|res| - 1] == x || (r != [] && res[|res| - 1] == r[|r| - 1]))
    decreases |r|
  {
    if r == [] || !LessInScope(x, r[|r| - 1], scope) {
    } else {
      var r' := r[..|r| - 1];
      InsertFromBackFacts(r', x, scope);
      assert r == r' + [r[|r| - 1]];
    }
  }

  lemma {:induction false} InsertFromBackOrdered(r: seq<string>, x: string, scope: set<string>)
    requires NeighboursAscendingIn(r, scope) && x !in r
    ensures NeighboursAscendingIn(InsertFromBack(r, x, scope), scope)
    decreases |r|
  {
    var res := InsertFromBack(r, x, scope);
    if r == [] || !LessInScope(x, r[|r| - 1], scope) {
      if r != [] && r[|r| - 1] in scope && x in scope {
        StrLessTotal(x, r[|r| - 1]);
      }
      assert res == r + [x];
    } else {
      var r' := r[..|r| - 1];
      var last := r[|r| - 1];
      assert NeighboursAscendingIn(r', scope) by {
        assert forall i :: 0 <= i < |r'| ==> r'[i] == r[i];
      }
      InsertFromBackOrdered(r', x, scope);
      InsertFromBackFacts(r', x, scope);
      var res' := InsertFromBack(r', x, scope);
      assert res == res' + [last];
      forall i | 0 <= i < |res| - 1 && res[i] in scope && res[i + 1] in scope
        ensures StrLess(res[i], res[i + 1])
      {
        if i < |res'| - 1 {
          assert res[i] == res'[i] && res[i + 1] == res'[i + 1];
        } else {
          assert res[i] == res'[|res'| - 1] && res[i + 1] == last;
        }
      }
    }
  }

  /** What `SortInScope` guarantees: it permutes its input, every name out of
      scope stays at its index, and neighbours in scope end up ascending. */
  lemma {:induction false} SortInScopeCorrect(s: seq<string>, scope: set<string>)
    requires NoDuplicates(s)
    ensures var res := SortInScope(s, scope);
      && |res| == |s|
      && multiset(res) == multiset(s)
      && (forall i :: 0 <= i < |s| && s[i] !in scope ==> res[i] == s[i])
      && NeighboursAscendingIn(res, scope)
    decreases |s|
  {
    if s != [] {
      var p := s[..|s| - 1];
      var x := s[|s| - 1];
      assert s == p + [x];
      assert NoDuplicates(p);
      SortInScopeCorrect(p, scope);
      var r := SortInScope(p, scope);
      InsertFromBackFacts(r, x, scope);
      assert x !in multiset(r) by {
        assert x !in p;
      }
      InsertFromBackOrdered(r, x, scope);
      var res := SortInScope(s, scope);
      assert multiset(s) == multiset(p) + multiset{x};
      forall i | 0 <= i < |s| && s[i] !in scope ensures res[i] == s[i] {
        if i < |p| {
          assert s[i] == p[i] && r[i] == p[i];
        }
      }
    }
  }

  lemma DistinctPermutation(s: seq<string>, t: seq<string>)
    requires NoDuplicates(s) && multiset(t) == multiset(s)
    ensures NoDuplicates(t) && |t| == |s| && (forall x :: x in t <==> x in s)
  {
    assert |t| == |multiset(t)| == |multiset(s)| == |s|;
    forall x ensures x in t <==> x in s {
      assert x in t <==> x in multiset(t);
      assert x in s <==> x in multiset(s);
    }
    forall i, j | 0 <= i < j < |t| ensures t[i] != t[j] {
      if t[i] == t[j] {
        MultiplicityAtLeastTwo(t, i, j);
        MultiplicityAtMostOne(s, t[i]);
      }
    }
  }

  lemma {:induction false} MultiplicityAtLeastTwo(t: seq<string>, i: nat, j: nat)
    requires i < j < |t| && t[i] == t[j]
    ensures multiset(t)[t[i]] >= 2
  {
    var x := t[i];
    assert t == t[..i] + [x] + t[i + 1..j] + [x] + t[j + 1..];
    assert multiset(t) == multiset(t[..i]) + multiset{x} + multiset(t[i + 1..j]) + multiset{x} + multiset(t[j + 1..]);
  }

  lemma {:induction false} MultiplicityAtMostOne(s: seq<string>, x: string)
    requires NoDuplicates(s)
    ensures multiset(s)[x] <= 1
    decreases |s|
  {
    if s != [] {
      assert s == [s[0]] + s[1..];
      assert NoDuplicates(s[1..]);
      MultiplicityAtMostOne(s[1..], x);
      if s[0] == x {
        assert x !in s[1..];
      }
    }
  }

  /** Ascending neighbours everywhere make the whole sequence ascending. */
  lemma {:induction false} NeighboursGiveAscending(s: seq<string>)
    requires NeighboursAscendingIn(s, set x | x in s)
    ensures Ascending(s)
    decreases |s|
  {
    if |s| >= 2 {
      var t := s[1..];
      assert NeighboursAscendingIn(t, set x | x in t) by {
        forall i | 0 <= i < |t| - 1 ensures StrLess(t[i], t[i + 1]) {
          assert t[i] == s[i + 1] && t[i + 1] == s[i + 2];
        }
      }
      NeighboursGiveAscending(t);
      forall i, j | 0 <= i < j < |s| ensures StrLess(s[i], s[j]) {
        if i == 0 && j > 1 {
          assert StrLess(s[0], s[1]);
          assert StrLess(t[0], t[j - 1]);
          StrLessTransitive(s[0], s[1], s[j]);
        } else if i > 0 {
          assert StrLess(t[i - 1], t[j - 1]);
        }
      }
    }
  }

  /** `sort_keys`: the same names, in ascending order. */
  function SortAscending(s: seq<string>): (res: seq<string>)
    requires NoDuplicates(s)
    ensures multiset(res) == multiset(s) && Ascending(res)
  {
    var res := SortInScope(s, set x | x in s);
    SortInScopeCorrect(s, set x | x in s);
    DistinctPermutation(s, res);
    assert (set x | x in res) == (set x | x in s);
    NeighboursGiveAscending(res);
    res
  }

  lemma StrLessAsymmetric(a: string, b: string)
    requires StrLess(a, b)
    ensures !StrLess(b, a)
  {
    if StrLess(b, a) {
      StrLessTransitive(a, b, a);
      StrLessIrreflexive(a);
    }
  }

  /** Two ascending sequences that contain each other's first names start
      with the same name. */
  lemma AscendingHeads(s: seq<string>, t: seq<string>)
    requires Ascending(s) && Ascending(t) && s != [] && t != []
    requires s[0] in t && t[0] in s
    ensures s[0] == t[0]
  {
    if s[0] != t[0] {
      var i :| 0 <= i < |s| && s[i] == t[0];
      var j :| 0 <= j < |t| && t[j] == s[0];
      assert StrLess(s[0], s[i]) && StrLess(t[0], t[j]);
      StrLessAsymmetric(s[0], t[0]);
      assert false;
    }
  }

  /** Two ascending orders of the same names are the same order: the result
      of `sort_keys` is determined by the names alone. */
  lemma {:induction false} AscendingUnique(s: seq<string>, t: seq<string>)
    requires Ascending(s) && Ascending(t) && multiset(s) == multiset(t)
    ensures s == t
    decreases |s|
  {
    assert |s| == |multiset(s)| == |multiset(t)| == |t|;
    if s != [] {
      assert s[0] in multiset(t) && t[0] in multiset(s);
      AscendingHeads(s, t);
      assert s == [s[0]] + s[1..] && t == [t[0]] + t[1..];
      assert multiset(s[1..]) == multiset(s) - multiset{s[0]};
      assert multiset(t[1..]) == multiset(t) - multiset{t[0]};
      AscendingUnique(s[1..], t[1..]);
    }
  }
}
