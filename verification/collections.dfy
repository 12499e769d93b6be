/** Python collection behaviour the dashboard relies on: dict comprehensions (the last entry
    for a key wins) and `sorted` over strings (code point order). */
module Collections {

  /** The dictionary `{k: v for (k, v) in entries}`: later entries overwrite earlier ones. */
  function DictOf<K(==), V>(entries: seq<(K, V)>): map<K, V>
  {
    if entries == [] then map[]
    else DictOf(entries[..|entries| - 1])[entries[|entries| - 1].0 := entries[|entries| - 1].1]
  }

  /** A key is in the dictionary exactly when some entry carries it. */
  lemma {:induction false} DictOfKeys<K, V>(entries: seq<(K, V)>, k: K)
    ensures k in DictOf(entries) <==> exists i :: 0 <= i < |entries| && entries[i].0 == k
  {
    if entries != [] {
      var n := |entries| - 1;
      var front := entries[..n];
      DictOfKeys(front, k);
      if k in DictOf(entries) && k != entries[n].0 {
        var i :| 0 <= i < |front| && front[i].0 == k;
        assert entries[i].0 == k;
      }
      if (exists i :: 0 <= i < |entries| && entries[i].0 == k) && k != entries[n].0 {
        var i :| 0 <= i < |entries| && entries[i].0 == k;
        assert i < n && front[i].0 == k;
      }
    }
  }

  /** The value stored for the key of entry `i` is entry `i`'s value when no later entry has
      the same key. */
  lemma {:induction false} DictOfLastWins<K, V>(entries: seq<(K, V)>, i: int)
    requires 0 <= i < |entries|
    requires forall j :: i < j < |entries| ==> entries[j].0 != entries[i].0
    ensures entries[i].0 in DictOf(entries) && DictOf(entries)[entries[i].0] == entries[i].1
  {
    var n := |entries| - 1;
    if i < n {
      var front := entries[..n];
      assert forall j :: i < j < |front| ==> front[j].0 != front[i].0 by {
        forall j | i < j < |front| ensures front[j].0 != front[i].0 {
          assert front[j] == entries[j];
        }
      }
      DictOfLastWins(front, i);
      assert entries[n].0 != entries[i].0;
    }
  }

  /** Every pair of the dictionary comes from one of the entries. */
  lemma {:induction false} DictOfFromEntry<K, V>(entries: seq<(K, V)>, k: K)
    requires k in DictOf(entries)
    ensures exists i :: 0 <= i < |entries| && entries[i] == (k, DictOf(entries)[k])
  {
    var n := |entries| - 1;
    if k == entries[n].0 {
      assert entries[n] == (k, DictOf(entries)[k]);
    } else {
      var front := entries[..n];
      DictOfFromEntry(front, k);
      var i :| 0 <= i < |front| && front[i] == (k, DictOf(front)[k]);
      assert entries[i] == front[i];
    }
  }

  /** Strict lexicographic order on strings, comparing characters by code point, as Python
      compares `str` values. */
  predicate Less(a: string, b: string)
  {
    b != [] && (a == [] || a[0] < b[0] || (a[0] == b[0] && Less(a[1..], b[1..])))
  }

  lemma {:induction false} LessIrreflexive(a: string)
    ensures !Less(a, a)
  {
    if a != [] {
      LessIrreflexive(a[1..]);
    }
  }

  lemma {:induction false} LessTransitive(a: string, b: string, c: string)
    requires Less(a, b) && Less(b, c)
    ensures Less(a, c)
  {
    if a != [] && a[0] == b[0] && b[0] == c[0] {
      LessTransitive(a[1..], b[1..], c[1..]);
    }
  }

  lemma {:induction false} LessTotal(a: string, b: string)
    requires a != b
    ensures Less(a, b) || Less(b, a)
  {
    if a != [] && b != [] && a[0] == b[0] {
      LessTotal(a[1..], b[1..]);
    }
  }

  /** Every string is before every later one: ascending and without repetition. */
  ghost predicate StrictlySorted(s: seq<string>)
  {
    forall i, j :: 0 <= i < j < |s| ==> Less(s[i], s[j])
  }

  /** Places `x` into an ascending list of distinct strings, unless it is already there. */
  function Insert(s: seq<string>, x: string): seq<string>
  {
    if s == [] then [x]
    else if x == s[0] then s
    else if Less(x, s[0]) then [x] + s
    else [s[0]] + Insert(s[1..], x)
  }

  lemma {:induction false} InsertSpec(s: seq<string>, x: string)
    requires StrictlySorted(s)
    ensures StrictlySorted(Insert(s, x))
    ensures forall y :: y in Insert(s, x) <==> y in s || y == x
  {
    if s == [] {
    } else if x == s[0] {
    } else if Less(x, s[0]) {
      var r := [x] + s;
      forall i, j | 0 <= i < j < |r| ensures Less(r[i], r[j]) {
        if i == 0 && j > 1 {
          LessTransitive(x, s[0], s[j - 1]);
        }
      }
    } else {
      var tail := s[1..];
      assert StrictlySorted(tail);
      InsertSpec(tail, x);
      LessTotal(x, s[0]);
      var r := [s[0]] + Insert(tail, x);
      forall i, j | 0 <= i < j < |r| ensures Less(r[i], r[j]) {
        if i == 0 {
          assert r[j] in Insert(tail, x);
          if r[j] != x {
            var k :| 0 <= k < |tail| && tail[k] == r[j];
            assert s[k + 1] == r[j];
          }
        }
      }
      forall y ensures y in r <==> y in s || y == x {
        assert s == [s[0]] + tail;
      }
    }
  }

  /** `sorted(set(names))`: the distinct names in ascending order. */
  function SortedDistinct(names: seq<string>): seq<string>
  {
    if names == [] then []
    else Insert(SortedDistinct(names[..|names| - 1]), names[|names| - 1])
  }

  lemma {:induction false} SortedDistinctSpec(names: seq<string>)
    ensures StrictlySorted(SortedDistinct(names))
    ensures forall y :: y in SortedDistinct(names) <==> y in names
  {
    if names != [] {
      var front := names[..|names| - 1];
      SortedDistinctSpec(front);
      InsertSpec(SortedDistinct(front), names[|names| - 1]);
      assert names == front + [names[|names| - 1]];
    }
  }

  /** A strictly sorted list holds each of its strings once. */
  lemma StrictlySortedDistinct(s: seq<string>, i: int, j: int)
    requires StrictlySorted(s)
    requires 0 <= i < |s| && 0 <= j < |s| && i != j
    ensures s[i] != s[j]
  {
    if i < j {
      LessIrreflexive(s[i]);
    } else {
      LessIrreflexive(s[j]);
    }
  }

  lemma LessAsymmetric(a: string, b: string)
    ensures !(Less(a, b) && Less(b, a))
  {
  }

  lemma HeadIn(s: seq<string>, t: seq<string>)
    requires forall y :: y in s ==> y in t
    ensures s != [] ==> s[0] in t
  {
  }

  /** Two strictly sorted lists with the same strings are the same list, so the sorted
      distinct list is unique. */
  lemma {:induction false} StrictlySortedUnique(a: seq<string>, b: seq<string>)
    requires StrictlySorted(a) && StrictlySorted(b)
    requires forall y :: y in a <==> y in b
    ensures a == b
  {
    if a == [] || b == [] {
      HeadIn(a, b);
      HeadIn(b, a);
    } else {
      // both heads are the least string of the common set, hence equal
      assert a[0] in b && b[0] in a;
      var k :| 0 <= k < |b| && b[k] == a[0];
      var m :| 0 <= m < |a| && a[m] == b[0];
      assert k != 0 ==> Less(b[0], a[0]);
      assert m != 0 ==> Less(a[0], b[0]);
      LessAsymmetric(a[0], b[0]);
      assert a[0] == b[0];
      var ta, tb := a[1..], b[1..];
      assert StrictlySorted(ta) && StrictlySorted(tb);
      forall y ensures y in ta <==> y in tb {
        if y in ta {
          var i :| 0 <= i < |ta| && ta[i] == y;
          StrictlySortedDistinct(a, 0, i + 1);
          assert y in b && y != b[0];
        }
        if y in tb {
          var i :| 0 <= i < |tb| && tb[i] == y;
          StrictlySortedDistinct(b, 0, i + 1);
          assert y in a && y != a[0];
        }
      }
      StrictlySortedUnique(ta, tb);
      assert a == [a[0]] + ta && b == [b[0]] + tb;
    }
  }
}
