/** Strict total orders and sorted sequences. */
module Order {
  /** `String.compareTo(...) < 0`: lexicographic by character. */
  predicate StringLess(a: string, b: string) {
    if b == "" then false
    else if a == "" then true
    else if a[0] != b[0] then a[0] < b[0]
    else StringLess(a[1..], b[1..])
  }

  ghost predicate Strict<T(!new)>(lt: (T, T) -> bool) {
    && (forall x :: !lt(x, x))
    && (forall x, y, z :: lt(x, y) && lt(y, z) ==> lt(x, z))
  }

  ghost predicate StrictTotal<T(!new)>(lt: (T, T) -> bool) {
    Strict(lt) && forall x, y :: lt(x, y) || lt(y, x) || x == y
  }

  lemma StringLessIsStrictTotal()
    ensures StrictTotal(StringLess)
  {
    forall x, y, z | StringLess(x, y) && StringLess(y, z) ensures StringLess(x, z) { StringTransitive(x, y, z); }
    forall x, y ensures StringLess(x, y) || StringLess(y, x) || x == y { StringTotal(x, y); }
    forall x ensures !StringLess(x, x) { StringIrreflexive(x); }
  }

  /** `a` is a proper prefix of `b`, or has the smaller character where they first differ. */
  lemma {:induction false} StringLessIff(a: string, b: string)
    ensures StringLess(a, b) <==>
              || (|a| < |b| && b[..|a|] == a)
              || exists k :: 0 <= k < |a| && k < |b| && a[..k] == b[..k] && a[k] < b[k]
  {
    if a == "" || b == "" {
    } else if a[0] != b[0] {
      assert forall k :: 0 < k < |a| && k < |b| ==> a[..k][0] != b[..k][0];
      assert a[0] < b[0] ==> a[..0] == b[..0];
      if |a| < |b| { assert b[..|a|][0] != a[0]; }
    } else {
      StringLessIff(a[1..], b[1..]);
      StringLessLater(a, b);
    }
  }

  lemma StringLessLater(a: string, b: string)
    requires a != "" && b != "" && a[0] == b[0]
    ensures |a| < |b| && b[..|a|] == a <==> |a[1..]| < |b[1..]| && b[1..][..|a[1..]|] == a[1..]
    ensures (exists k :: 0 <= k < |a| && k < |b| && a[..k] == b[..k] && a[k] < b[k])
       <==> (exists k :: 0 <= k < |a[1..]| && k < |b[1..]| && a[1..][..k] == b[1..][..k] && a[1..][k] < b[1..][k])
  {
    var x, y := a[1..], b[1..];
    if |a| < |b| {
      assert b[..|a|] == [b[0]] + y[..|x|] && a == [a[0]] + x;
      if b[..|a|] == a { assert y[..|x|] == b[..|a|][1..]; }
    }
    if k :| 0 <= k < |a| && k < |b| && a[..k] == b[..k] && a[k] < b[k] {
      assert k > 0 && x[..k - 1] == a[..k][1..] && y[..k - 1] == b[..k][1..];
      assert x[k - 1] < y[k - 1];
    }
    if k :| 0 <= k < |x| && k < |y| && x[..k] == y[..k] && x[k] < y[k] {
      assert a[..k + 1] == [a[0]] + x[..k] && b[..k + 1] == [b[0]] + y[..k];
      assert a[k + 1] < b[k + 1];
    }
  }

  lemma {:induction false} StringIrreflexive(x: string)
    ensures !StringLess(x, x)
  {
    if x != "" { StringIrreflexive(x[1..]); }
  }

  lemma {:induction false} StringTransitive(x: string, y: string, z: string)
    requires StringLess(x, y) && StringLess(y, z)
    ensures StringLess(x, z)
  {
    if x != "" && x[0] == y[0] == z[0] { StringTransitive(x[1..], y[1..], z[1..]); }
  }

  lemma {:induction false} StringTotal(x: string, y: string)
    ensures StringLess(x, y) || StringLess(y, x) || x == y
  {
    if x != "" && y != "" && x[0] == y[0] {
      StringTotal(x[1..], y[1..]);
      assert x == [x[0]] + x[1..] && y == [y[0]] + y[1..];
    }
  }

  ghost predicate Ascending<T>(lt: (T, T) -> bool, s: seq<T>) {
    forall i, j :: 0 <= i < j < |s| ==> lt(s[i], s[j])
  }

  ghost predicate SameElements<T>(a: seq<T>, b: seq<T>) {
    && (forall x :: x in a ==> x in b)
    && (forall x :: x in b ==> x in a)
  }

  /** A strictly ascending sequence is determined by its elements. */
  lemma {:induction false} AscendingUnique<T(!new)>(lt: (T, T) -> bool, a: seq<T>, b: seq<T>)
    requires Strict(lt) && Ascending(lt, a) && Ascending(lt, b) && SameElements(a, b)
    ensures a == b
  {
    assert b != [] ==> b[0] in a;
    if a == [] {
    } else {
      assert a[0] in b;
      assert b[0] in a;
      assert a[0] == b[0];
      forall x | x in a[1..] ensures x in b[1..] {
        var i :| 1 <= i < |a| && a[i] == x;
        assert lt(a[0], a[i]);
        assert x in b;
      }
      forall x | x in b[1..] ensures x in a[1..] {
        var i :| 1 <= i < |b| && b[i] == x;
        assert lt(b[0], b[i]);
        assert x in a;
      }
      AscendingUnique(lt, a[1..], b[1..]);
      assert a == [a[0]] + a[1..] && b == [b[0]] + b[1..];
    }
  }

  /** Non-descending: what a sort establishes. */
  ghost predicate Sorted<T>(lt: (T, T) -> bool, s: seq<T>) {
    forall i, j :: 0 <= i < j < |s| ==> !lt(s[j], s[i])
  }

  lemma SortedSnoc<T>(lt: (T, T) -> bool, s: seq<T>, x: T)
    requires Sorted(lt, s) && forall y :: y in s ==> !lt(x, y)
    ensures Sorted(lt, s + [x])
  {
  }

  function Insert<T>(lt: (T, T) -> bool, s: seq<T>, x: T): seq<T> {
    if s == [] then [x]
    else if lt(x, s[|s| - 1]) then Insert(lt, s[..|s| - 1], x) + [s[|s| - 1]]
    else s + [x]
  }

  /** The library sort, as a function of its input. */
  function Sort<T>(lt: (T, T) -> bool, s: seq<T>): seq<T> {
    if s == [] then [] else Insert(lt, Sort(lt, s[..|s| - 1]), s[|s| - 1])
  }

  lemma {:induction false} InsertKeeps<T>(lt: (T, T) -> bool, s: seq<T>, x: T)
    ensures multiset(Insert(lt, s, x)) == multiset(s) + multiset{x}
  {
    if s != [] && lt(x, s[|s| - 1]) {
      InsertKeeps(lt, s[..|s| - 1], x);
      assert s == s[..|s| - 1] + [s[|s| - 1]];
    }
  }

  lemma {:induction false} InsertSorts<T(!new)>(lt: (T, T) -> bool, s: seq<T>, x: T)
    requires StrictTotal(lt) && Sorted(lt, s)
    ensures Sorted(lt, Insert(lt, s, x))
  {
    if s == [] {
    } else {
      var front, last := s[..|s| - 1], s[|s| - 1];
      if lt(x, last) {
        InsertSorts(lt, front, x);
        InsertKeeps(lt, front, x);
        var r := Insert(lt, front, x);
        forall y | y in r ensures !lt(last, y) {
          assert y in multiset(r);
          assert y in front || y == x;
        }
        hide Sorted, Insert;
        SortedSnoc(lt, r, last);
      } else {
        forall y | y in s ensures !lt(x, y) {
          assert lt(y, last) || y == last;
        }
        hide Sorted;
        SortedSnoc(lt, s, x);
      }
    }
  }

  lemma {:induction false} SortSorts<T(!new)>(lt: (T, T) -> bool, s: seq<T>)
    requires StrictTotal(lt)
    ensures Sorted(lt, Sort(lt, s)) && multiset(Sort(lt, s)) == multiset(s)
  {
    if s != [] {
      var front, last := s[..|s| - 1], s[|s| - 1];
      SortSorts(lt, front);
      InsertSorts(lt, Sort(lt, front), last);
      InsertKeeps(lt, Sort(lt, front), last);
      hide StrictTotal, Sorted, Insert;
      assert s == front + [last];
    }
  }

  /** Inserting a new element into a strictly ascending sequence keeps it strictly ascending. */
  lemma {:induction false} InsertAscends<T(!new)>(lt: (T, T) -> bool, s: seq<T>, x: T)
    requires StrictTotal(lt) && Ascending(lt, s) && x !in s
    ensures Ascending(lt, Insert(lt, s, x))
    ensures forall y :: y in Insert(lt, s, x) <==> y in s || y == x
  {
    if s == [] {
    } else if lt(x, s[|s| - 1]) {
      var front, last := s[..|s| - 1], s[|s| - 1];
      InsertAscends(lt, front, x);
      assert s == front + [last];
      var r := Insert(lt, front, x);
      forall i | 0 <= i < |r| ensures lt(r[i], last) {
        assert r[i] in r;
      }
    } else {
      var last := s[|s| - 1];
      assert lt(last, x);
      forall i | 0 <= i < |s| ensures lt(s[i], x) {
        assert i < |s| - 1 ==> lt(s[i], last);
      }
    }
  }

  /** An ascending sequence is already sorted. */
  lemma {:induction false} SortAscending<T(!new)>(lt: (T, T) -> bool, s: seq<T>)
    requires StrictTotal(lt) && Ascending(lt, s)
    ensures Sort(lt, s) == s
  {
    if s != [] {
      var front := s[..|s| - 1];
      SortAscending(lt, front);
      if front != [] { assert lt(front[|front| - 1], s[|s| - 1]); }
      assert s == front + [s[|s| - 1]];
    }
  }
}
