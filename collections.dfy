/**
 * Generic operations on the rows of a table: the `.eq(column, value)` filter
 * and its complement (a `.delete().eq(...)`), the `reduce` sums, and the
 * ordering by a creation key.
 */
module Collections {

  /** `rows.reduce((sum, x) => sum + amount(x), 0)`. */
  function SumOf<T>(s: seq<T>, amount: T -> int): int {
    if s == [] then 0 else amount(s[0]) + SumOf(s[1..], amount)
  }

  lemma {:induction false} SumOfAppend<T>(a: seq<T>, b: seq<T>, amount: T -> int)
    ensures SumOf(a + b, amount) == SumOf(a, amount) + SumOf(b, amount)
  {
    if a != [] {
      assert (a + b)[1..] == a[1..] + b;
      SumOfAppend(a[1..], b, amount);
    } else {
      assert a + b == b;
    }
  }

  /** A sum of amounts none of which is negative is not negative. */
  lemma {:induction false} SumOfNonNegative<T>(s: seq<T>, amount: T -> int)
    ensures (forall i :: 0 <= i < |s| ==> amount(s[i]) >= 0) ==> SumOf(s, amount) >= 0
  {
    if s != [] {
      SumOfNonNegative(s[1..], amount);
      assert forall i :: 0 <= i < |s[1..]| ==> s[1..][i] == s[i + 1];
    }
  }

  /** `s.filter(keep)`: the elements that pass `keep`, in order. */
  function Filter<T>(s: seq<T>, keep: T -> bool): (r: seq<T>)
    ensures |r| <= |s|
  {
    if s == [] then [] else (if keep(s[0]) then [s[0]] else []) + Filter(s[1..], keep)
  }

  /** Filtering a concatenation concatenates the filtered parts, so order is kept. */
  lemma {:induction false} FilterAppend<T>(a: seq<T>, b: seq<T>, keep: T -> bool)
    ensures Filter(a + b, keep) == Filter(a, keep) + Filter(b, keep)
  {
    if a == [] {
      assert a + b == b;
    } else {
      var head := if keep(a[0]) then [a[0]] else [];
      assert (a + b)[0] == a[0];
      assert (a + b)[1..] == a[1..] + b;
      FilterAppend(a[1..], b, keep);
      assert head + (Filter(a[1..], keep) + Filter(b, keep)) == (head + Filter(a[1..], keep)) + Filter(b, keep);
    }
  }

  /** The filter holds exactly the elements that pass. */
  lemma {:induction false} FilterMembers<T>(s: seq<T>, keep: T -> bool)
    ensures forall x :: x in Filter(s, keep) <==> x in s && keep(x)
  {
    if s != [] {
      FilterMembers(s[1..], keep);
      assert s == [s[0]] + s[1..];
    }
  }

  /** The rows whose owner column equals `id`, in table order: `.eq(column, id)`. */
  function OwnedBy<T(!new)>(s: seq<T>, owner: T -> nat, id: nat): (r: seq<T>)
    ensures |r| <= |s|
  {
    if s == [] then []
    else
      var last := s[|s| - 1];
      OwnedBy(s[..|s| - 1], owner, id) + (if owner(last) == id then [last] else [])
  }

  /** The rows left by `.delete().eq(column, id)`, in table order. */
  function Disowned<T(!new)>(s: seq<T>, owner: T -> nat, id: nat): (r: seq<T>)
    ensures |r| <= |s|
  {
    if s == [] then []
    else
      var last := s[|s| - 1];
      Disowned(s[..|s| - 1], owner, id) + (if owner(last) != id then [last] else [])
  }

  /** A row appended to a table is appended to the filter when it matches. */
  lemma OwnedBySnoc<T(!new)>(s: seq<T>, x: T, owner: T -> nat, id: nat)
    ensures OwnedBy(s + [x], owner, id) == OwnedBy(s, owner, id) + (if owner(x) == id then [x] else [])
  {
    assert (s + [x])[..|s|] == s;
  }

  /** A row appended to a table survives the deletion unless it is owned by `id`. */
  lemma DisownedSnoc<T(!new)>(s: seq<T>, x: T, owner: T -> nat, id: nat)
    ensures Disowned(s + [x], owner, id) == Disowned(s, owner, id) + (if owner(x) != id then [x] else [])
  {
    assert (s + [x])[..|s|] == s;
  }

  /** The filter holds exactly the rows of `s` owned by `id`. */
  lemma {:induction false} OwnedByMembers<T(!new)>(s: seq<T>, owner: T -> nat, id: nat)
    ensures forall x :: x in OwnedBy(s, owner, id) <==> x in s && owner(x) == id
    decreases |s|
  {
    if s != [] {
      var init, last := s[..|s| - 1], s[|s| - 1];
      assert s == init + [last];
      OwnedByMembers(init, owner, id);
      OwnedBySnoc(init, last, owner, id);
    }
  }

  /** The deletion keeps exactly the rows of `s` not owned by `id`. */
  lemma {:induction false} DisownedMembers<T(!new)>(s: seq<T>, owner: T -> nat, id: nat)
    ensures forall x :: x in Disowned(s, owner, id) <==> x in s && owner(x) != id
    decreases |s|
  {
    if s != [] {
      var init, last := s[..|s| - 1], s[|s| - 1];
      assert s == init + [last];
      DisownedMembers(init, owner, id);
      DisownedSnoc(init, last, owner, id);
    }
  }

  /** Every row belongs either to `id` or not, so a table's sum splits into the two filters. */
  lemma {:induction false} SumOfSplit<T(!new)>(s: seq<T>, owner: T -> nat, id: nat, amount: T -> int)
    ensures SumOf(s, amount) == SumOf(OwnedBy(s, owner, id), amount) + SumOf(Disowned(s, owner, id), amount)
    decreases |s|
  {
    if s != [] {
      var init, last := s[..|s| - 1], s[|s| - 1];
      assert s == init + [last];
      SumOfSplit(init, owner, id, amount);
      SumOfAppend(init, [last], amount);
      var mine := if owner(last) == id then [last] else [];
      var other := if owner(last) != id then [last] else [];
      SumOfAppend(OwnedBy(init, owner, id), mine, amount);
      SumOfAppend(Disowned(init, owner, id), other, amount);
      assert SumOf(mine, amount) + SumOf(other, amount) == amount(last) by {
        assert [last][1..] == [];
      }
    }
  }

  /** Deleting the rows of `id` leaves the rows of every other owner as they were. */
  lemma {:induction false} OwnedByDisowned<T(!new)>(s: seq<T>, owner: T -> nat, id: nat, k: nat)
    requires k != id
    ensures OwnedBy(Disowned(s, owner, id), owner, k) == OwnedBy(s, owner, k)
    decreases |s|
  {
    if s != [] {
      var init, last := s[..|s| - 1], s[|s| - 1];
      assert s == init + [last];
      OwnedByDisowned(init, owner, id, k);
      DisownedSnoc(init, last, owner, id);
      OwnedBySnoc(init, last, owner, k);
      if owner(last) != id {
        OwnedBySnoc(Disowned(init, owner, id), last, owner, k);
      } else {
        assert Disowned(s, owner, id) == Disowned(init, owner, id) + [];
        assert Disowned(init, owner, id) + [] == Disowned(init, owner, id);
        assert OwnedBy(init, owner, k) + [] == OwnedBy(init, owner, k);
      }
    }
  }

  /** A filter that matches no row is empty. */
  lemma OwnedByNone<T(!new)>(s: seq<T>, owner: T -> nat, id: nat)
    requires forall x :: x in s ==> owner(x) != id
    ensures OwnedBy(s, owner, id) == []
  {
    OwnedByMembers(s, owner, id);
    if OwnedBy(s, owner, id) != [] {
      assert OwnedBy(s, owner, id)[0] in OwnedBy(s, owner, id);
    }
  }

  /**
   * `key` strictly increases along `s` and stays below `bound`: the rows of a
   * table in insertion order, stamped by a counter whose next value is `bound`.
   */
  ghost predicate Ascending<T>(s: seq<T>, key: T -> nat, bound: nat)
    decreases |s|
  {
    s == [] || (key(s[|s| - 1]) < bound && Ascending(s[..|s| - 1], key, key(s[|s| - 1])))
  }

  /** `key` strictly decreases along `s`: `.order(key, { ascending: false })`. */
  ghost predicate Descending<T>(s: seq<T>, key: T -> nat) {
    forall i, j :: 0 <= i < j < |s| ==> key(s[i]) > key(s[j])
  }

  /** A larger bound is still a bound. */
  lemma AscendingWeaken<T>(s: seq<T>, key: T -> nat, bound: nat, bound': nat)
    requires Ascending(s, key, bound) && bound <= bound'
    ensures Ascending(s, key, bound')
  {
  }

  /** A row whose key lies between the last key and the bound extends an ascending table. */
  lemma SnocAscending<T>(s: seq<T>, x: T, key: T -> nat, bound: nat)
    requires Ascending(s, key, key(x)) && key(x) < bound
    ensures Ascending(s + [x], key, bound)
  {
    assert (s + [x])[..|s|] == s;
  }

  /** A row stamped with the counter keeps the table ascending and advances the counter. */
  lemma AppendAscending<T>(s: seq<T>, x: T, key: T -> nat, bound: nat)
    requires Ascending(s, key, bound) && key(x) == bound
    ensures Ascending(s + [x], key, bound + 1)
  {
    SnocAscending(s, x, key, bound + 1);
  }

  /** Every key of an ascending table is below its bound. */
  lemma {:induction false} AscendingBelow<T>(s: seq<T>, key: T -> nat, bound: nat, i: nat)
    requires Ascending(s, key, bound) && i < |s|
    ensures key(s[i]) < bound
    decreases |s|
  {
    if i < |s| - 1 {
      AscendingBelow(s[..|s| - 1], key, key(s[|s| - 1]), i);
    }
  }

  /** Keys increase with the position. */
  lemma {:induction false} AscendingOrder<T>(s: seq<T>, key: T -> nat, bound: nat, i: nat, j: nat)
    requires Ascending(s, key, bound) && i < j < |s|
    ensures key(s[i]) < key(s[j])
    decreases |s|
  {
    var init := s[..|s| - 1];
    if j == |s| - 1 {
      AscendingBelow(init, key, key(s[j]), i);
    } else {
      AscendingOrder(init, key, key(s[|s| - 1]), i, j);
    }
  }

  /** Keys are distinct: two positions never share a key. */
  lemma AscendingDistinct<T>(s: seq<T>, key: T -> nat, bound: nat, i: nat, j: nat)
    requires Ascending(s, key, bound) && i < |s| && j < |s| && i != j
    ensures key(s[i]) != key(s[j])
  {
    if i < j {
      AscendingOrder(s, key, bound, i, j);
    } else {
      AscendingOrder(s, key, bound, j, i);
    }
  }

  /** Replacing a row by one with the same key keeps the table ascending. */
  lemma {:induction false} AscendingUpdate<T>(s: seq<T>, k: nat, x: T, key: T -> nat, bound: nat)
    requires Ascending(s, key, bound) && k < |s| && key(x) == key(s[k])
    ensures Ascending(s[k := x], key, bound)
    decreases |s|
  {
    var n := |s|;
    var r := s[k := x];
    if k == n - 1 {
      assert r[..n - 1] == s[..n - 1];
    } else {
      assert r[..n - 1] == s[..n - 1][k := x];
      AscendingUpdate(s[..n - 1], k, x, key, key(s[n - 1]));
    }
  }

  /** Deleting rows keeps the survivors in their order. */
  lemma {:induction false} DisownedAscending<T(!new)>(s: seq<T>, owner: T -> nat, id: nat, key: T -> nat, bound: nat)
    requires Ascending(s, key, bound)
    ensures Ascending(Disowned(s, owner, id), key, bound)
    decreases |s|
  {
    if s != [] {
      var init, last := s[..|s| - 1], s[|s| - 1];
      assert s == init + [last];
      DisownedAscending(init, owner, id, key, key(last));
      DisownedSnoc(init, last, owner, id);
      if owner(last) != id {
        SnocAscending(Disowned(init, owner, id), last, key, bound);
      } else {
        assert Disowned(s, owner, id) == Disowned(init, owner, id) + [];
        assert Disowned(init, owner, id) + [] == Disowned(init, owner, id);
        AscendingWeaken(Disowned(init, owner, id), key, key(last), bound);
      }
    }
  }

  /** Filtering keeps the rows in their order. */
  lemma {:induction false} OwnedByAscending<T(!new)>(s: seq<T>, owner: T -> nat, id: nat, key: T -> nat, bound: nat)
    requires Ascending(s, key, bound)
    ensures Ascending(OwnedBy(s, owner, id), key, bound)
    decreases |s|
  {
    if s != [] {
      var init, last := s[..|s| - 1], s[|s| - 1];
      assert s == init + [last];
      OwnedByAscending(init, owner, id, key, key(last));
      OwnedBySnoc(init, last, owner, id);
      if owner(last) == id {
        SnocAscending(OwnedBy(init, owner, id), last, key, bound);
      } else {
        assert OwnedBy(s, owner, id) == OwnedBy(init, owner, id) + [];
        assert OwnedBy(init, owner, id) + [] == OwnedBy(init, owner, id);
        AscendingWeaken(OwnedBy(init, owner, id), key, key(last), bound);
      }
    }
  }

  /** The rows in reverse table order. */
  function Reverse<T>(s: seq<T>): (r: seq<T>)
    ensures |r| == |s|
    ensures forall i :: 0 <= i < |s| ==> r[i] == s[|s| - 1 - i]
  {
    seq(|s|, i requires 0 <= i < |s| => s[|s| - 1 - i])
  }

  /**
   * Newest first: when the table is in insertion order, reversing it is the
   * sort by descending creation key, and it holds the same rows.
   */
  lemma ReverseDescending<T>(s: seq<T>, key: T -> nat, bound: nat)
    requires Ascending(s, key, bound)
    ensures Descending(Reverse(s), key)
    ensures forall x :: x in Reverse(s) <==> x in s
  {
    var r := Reverse(s);
    forall i, j | 0 <= i < j < |r| ensures key(r[i]) > key(r[j]) {
      AscendingOrder(s, key, bound, |s| - 1 - j, |s| - 1 - i);
    }
    forall x | x in s ensures x in r {
      var i :| 0 <= i < |s| && s[i] == x;
      assert r[|s| - 1 - i] == x;
    }
  }

  lemma {:induction false} SumOfReverse<T>(s: seq<T>, amount: T -> int)
    ensures SumOf(Reverse(s), amount) == SumOf(s, amount)
  {
    if s != [] {
      var last := s[|s| - 1];
      var init := s[..|s| - 1];
      assert Reverse(s) == [last] + Reverse(init);
      SumOfReverse(init, amount);
      SumOfAppend([last], Reverse(init), amount);
      SumOfAppend(init, [last], amount);
      assert init + [last] == s;
    }
  }
}
