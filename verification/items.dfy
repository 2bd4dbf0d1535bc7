/** The item lists of a region: the distinct `Item` names of a price
    table in ascending string order (Python's `sorted(set(...))`). They fix
    the number and order of the price slots of every feature vector. */
module Items {

  /** Python's string order: code point by code point, a proper prefix first. */
  predicate Below(a: string, b: string)
  {
    if |a| == 0 then |b| > 0
    else if |b| == 0 then false
    else if a[0] != b[0] then a[0] < b[0]
    else Below(a[1..], b[1..])
  }

  lemma {:induction false} BelowIrreflexive(a: string)
    ensures !Below(a, a)
  {
    if |a| > 0 {
      BelowIrreflexive(a[1..]);
    }
  }

  lemma {:induction false} BelowTransitive(a: string, b: string, c: string)
    requires Below(a, b) && Below(b, c)
    ensures Below(a, c)
  {
    if |a| > 0 && |b| > 0 && |c| > 0 && a[0] == b[0] && b[0] == c[0] {
      BelowTransitive(a[1..], b[1..], c[1..]);
    }
  }

  lemma {:induction false} BelowTotal(a: string, b: string)
    requires a != b
    ensures Below(a, b) || Below(b, a)
  {
    if |a| > 0 && |b| > 0 && a[0] == b[0] {
      assert a == [a[0]] + a[1..] && b == [b[0]] + b[1..];
      BelowTotal(a[1..], b[1..]);
    }
  }

  predicate StrictlySorted(s: seq<string>)
  {
    forall i, j :: 0 <= i < j < |s| ==> Below(s[i], s[j])
  }

  /** Adds a name to a strictly sorted list, keeping it strictly sorted. */
  function Insert(x: string, s: seq<string>): (r: seq<string>)
    requires StrictlySorted(s)
    ensures StrictlySorted(r)
    ensures forall y :: y in r <==> y == x || y in s
  {
    if |s| == 0 then [x]
    else if x == s[0] then s
    else if Below(x, s[0]) then
      InsertFront(x, s);
      [x] + s
    else
      BelowTotal(x, s[0]);
      var rest := Insert(x, s[1..]);
      InsertBehind(s[0], rest, x, s[1..]);
      [s[0]] + rest
  }

  lemma {:induction false} InsertFront(x: string, s: seq<string>)
    requires StrictlySorted(s) && |s| > 0 && Below(x, s[0])
    ensures StrictlySorted([x] + s)
  {
    var r := [x] + s;
    forall i, j | 0 <= i < j < |r| ensures Below(r[i], r[j]) {
      if i == 0 && j > 1 {
        BelowTransitive(x, s[0], s[j - 1]);
      }
    }
  }

  lemma {:induction false} InsertBehind(h: string, rest: seq<string>, x: string, tail: seq<string>)
    requires StrictlySorted(rest) && StrictlySorted([h] + tail)
    requires Below(h, x)
    requires forall y :: y in rest ==> y == x || y in tail
    ensures StrictlySorted([h] + rest)
  {
    var r := [h] + rest;
    forall i, j | 0 <= i < j < |r| ensures Below(r[i], r[j]) {
      if i == 0 {
        assert r[0] == h && r[j] == rest[j - 1] && r[j] in rest;
        if r[j] != x {
          var k :| 0 <= k < |tail| && tail[k] == r[j];
          var ht := [h] + tail;
          assert ht[0] == h && ht[k + 1] == r[j];
          assert Below(ht[0], ht[k + 1]);
        }
      } else {
        assert r[i] == rest[i - 1] && r[j] == rest[j - 1];
        assert Below(rest[i - 1], rest[j - 1]);
      }
    }
  }

  /** The distinct names, sorted: `sorted(set(names))`. */
  function SortedDistinct(names: seq<string>): (r: seq<string>)
    ensures StrictlySorted(r)
    ensures forall y :: y in r <==> y in names
  {
    if |names| == 0 then []
    else Insert(names[0], SortedDistinct(names[1..]))
  }

  /** Strictly sorted lists of the same names are the same list: the slot
      order of a region does not depend on the row order of its tables. */
  lemma {:induction false} SortedUnique(a: seq<string>, b: seq<string>)
    requires StrictlySorted(a) && StrictlySorted(b)
    requires forall y :: y in a <==> y in b
    ensures a == b
  {
    assert |a| > 0 ==> a[0] in a;
    assert |b| > 0 ==> b[0] in b;
    if |a| > 0 && |b| > 0 {
      HeadIsLeast(a);
      HeadIsLeast(b);
      assert a[0] in b && b[0] in a;
      if Below(a[0], b[0]) && Below(b[0], a[0]) {
        BelowIrreflexive(a[0]);
        BelowTransitive(a[0], b[0], a[0]);
      }
      assert a[0] == b[0];
      forall y ensures y in a[1..] <==> y in b[1..] {
        if y in a[1..] {
          var k :| 0 <= k < |a| - 1 && a[1..][k] == y;
          assert a[k + 1] == y && Below(a[0], a[k + 1]);
          BelowIrreflexive(y);
          assert y in b;
          var m :| 0 <= m < |b| && b[m] == y;
          assert m != 0 && b[1..][m - 1] == y;
        }
        if y in b[1..] {
          var k :| 0 <= k < |b| - 1 && b[1..][k] == y;
          assert b[k + 1] == y && Below(b[0], b[k + 1]);
          BelowIrreflexive(y);
          assert y in a;
          var m :| 0 <= m < |a| && a[m] == y;
          assert m != 0 && a[1..][m - 1] == y;
        }
      }
      SortedUnique(a[1..], b[1..]);
      assert a == [a[0]] + a[1..] && b == [b[0]] + b[1..];
    }
  }

  lemma {:induction false} HeadIsLeast(a: seq<string>)
    requires StrictlySorted(a) && |a| > 0
    ensures forall y :: y in a ==> y == a[0] || Below(a[0], y)
  {
  }

  /** Sorted distinct lists have no repeated name. */
  lemma {:induction false} SortedHasNoDuplicates(s: seq<string>)
    requires StrictlySorted(s)
    ensures forall i, j :: 0 <= i < j < |s| ==> s[i] != s[j]
  {
    forall i, j | 0 <= i < j < |s| ensures s[i] != s[j] {
      BelowIrreflexive(s[i]);
    }
  }
}
