/**
  `sorted(rows, key=lambda k: k["seq"])`: Python's sort is stable, so the result
  is ordered by key, is a permutation of its input, and keeps the input order
  among rows with equal keys. The sort builds a new list; the input is not changed.
*/
module StableSort {
  import opened StringOrder
  import opened ReportRows

  /** No row is followed by a row with a smaller key. */
  predicate Sorted(rows: seq<ReportRow>)
  {
    forall i, j :: 0 <= i < j < |rows| ==> !Below(rows[j].sortKey, rows[i].sortKey)
  }

  /** The rows whose key is `key`, in their order in `rows`. */
  function WithKey(rows: seq<ReportRow>, key: string): seq<ReportRow>
  {
    if rows == [] then []
    else (if rows[0].sortKey == key then [rows[0]] else []) + WithKey(rows[1..], key)
  }

  lemma {:induction false} WithKeyMembers(rows: seq<ReportRow>, key: string)
    ensures forall row :: row in WithKey(rows, key) <==> row in rows && row.sortKey == key
    decreases |rows|
  {
    if rows != [] {
      WithKeyMembers(rows[1..], key);
      assert rows == [rows[0]] + rows[1..];
    }
  }

  /** `output` is what a stable sort by key makes of `input`. */
  ghost predicate StablySorted(output: seq<ReportRow>, input: seq<ReportRow>)
  {
    && Sorted(output)
    && multiset(output) == multiset(input)
    && forall key :: WithKey(output, key) == WithKey(input, key)
  }

  lemma {:induction false} WithKeyAppend(a: seq<ReportRow>, b: seq<ReportRow>, key: string)
    ensures WithKey(a + b, key) == WithKey(a, key) + WithKey(b, key)
    decreases |a|
  {
    if a == [] {
      assert a + b == b;
    } else {
      assert (a + b)[0] == a[0] && (a + b)[1..] == a[1..] + b;
      WithKeyAppend(a[1..], b, key);
    }
  }

  /** Putting `x` between a front whose keys are not above its own and a back whose keys are above it keeps the order. */
  lemma InsertKeepsSorted(sorted: seq<ReportRow>, p: nat, x: ReportRow)
    requires Sorted(sorted) && p <= |sorted|
    requires forall q :: 0 <= q < p ==> !Below(x.sortKey, sorted[q].sortKey)
    requires forall q :: p <= q < |sorted| ==> Below(x.sortKey, sorted[q].sortKey)
    ensures Sorted(sorted[..p] + [x] + sorted[p..])
  {
    var result := sorted[..p] + [x] + sorted[p..];
    forall i, j | 0 <= i < j < |result|
      ensures !Below(result[j].sortKey, result[i].sortKey)
    {
      if j == p {
        assert result[i] == sorted[i];
      } else if i == p {
        assert result[j] == sorted[j - 1];
        BelowAsymmetric(x.sortKey, result[j].sortKey);
      } else {
        var i', j' := if i < p then i else i - 1, if j < p then j else j - 1;
        assert result[i] == sorted[i'] && result[j] == sorted[j'];
      }
    }
  }

  lemma {:induction false} WithKeyAbsent(rows: seq<ReportRow>, key: string)
    requires forall q :: 0 <= q < |rows| ==> rows[q].sortKey != key
    ensures WithKey(rows, key) == []
    decreases |rows|
  {
    if rows != [] {
      WithKeyAbsent(rows[1..], key);
    }
  }

  lemma WithKeySingle(x: ReportRow, key: string)
    ensures WithKey([x], key) == if x.sortKey == key then [x] else []
  {
    assert [x][1..] == [];
  }

  /** Inserting `x` before a back that holds no row with its key adds `x` at the end of its key's rows. */
  lemma InsertKeepsKeyOrder(front: seq<ReportRow>, back: seq<ReportRow>, x: ReportRow, key: string)
    requires forall q :: 0 <= q < |back| ==> back[q].sortKey != x.sortKey
    ensures WithKey(front + [x] + back, key) == WithKey(front + back, key) + WithKey([x], key)
  {
    var wf, wx, wb := WithKey(front, key), WithKey([x], key), WithKey(back, key);
    WithKeyAppend(front, back, key);
    WithKeyAppend(front + [x], back, key);
    WithKeyAppend(front, [x], key);
    assert WithKey(front + [x] + back, key) == wf + wx + wb;
    assert WithKey(front + back, key) == wf + wb;
    WithKeySingle(x, key);
    if key == x.sortKey {
      WithKeyAbsent(back, key);
      assert wb == [];
      assert wf + wx + wb == wf + wx;
      assert wf + wb == wf;
    } else {
      assert wx == [];
      assert wf + wx == wf;
      assert wf + wb + wx == wf + wb;
    }
  }

  /**
    Inserts `x` after every row whose key is not above its own, so that `x`
    follows the rows with its key that were there before it.
  */
  method InsertStable(sorted: seq<ReportRow>, x: ReportRow) returns (result: seq<ReportRow>)
    requires Sorted(sorted)
    ensures Sorted(result)
    ensures multiset(result) == multiset(sorted) + multiset{x}
    ensures forall key :: WithKey(result, key) == WithKey(sorted, key) + WithKey([x], key)
  {
    var p := |sorted|;
    while p > 0 && Below(x.sortKey, sorted[p - 1].sortKey)
      invariant 0 <= p <= |sorted|
      invariant forall q :: p <= q < |sorted| ==> Below(x.sortKey, sorted[q].sortKey)
    {
      p := p - 1;
    }
    // Every row in front of x has a key not above x's.
    forall q | 0 <= q < p
      ensures !Below(x.sortKey, sorted[q].sortKey)
    {
      if q < p - 1 {
        NotAboveTransitive(sorted[q].sortKey, sorted[p - 1].sortKey, x.sortKey);
      }
    }
    InsertKeepsSorted(sorted, p, x);
    forall q | p <= q < |sorted|
      ensures sorted[q].sortKey != x.sortKey
    {
      if sorted[q].sortKey == x.sortKey {
        BelowIrreflexive(x.sortKey);
      }
    }
    assert forall q :: 0 <= q < |sorted[p..]| ==> sorted[p..][q].sortKey != x.sortKey;
    assert sorted == sorted[..p] + sorted[p..];
    forall key
      ensures WithKey(sorted[..p] + [x] + sorted[p..], key) == WithKey(sorted, key) + WithKey([x], key)
    {
      InsertKeepsKeyOrder(sorted[..p], sorted[p..], x, key);
    }
    result := sorted[..p] + [x] + sorted[p..];
  }

  /** Sorts by key, stably, into a new sequence. */
  method SortBySeq(rows: seq<ReportRow>) returns (sorted: seq<ReportRow>)
    ensures StablySorted(sorted, rows)
  {
    sorted := [];
    var i := 0;
    while i < |rows|
      invariant 0 <= i <= |rows|
      invariant Sorted(sorted)
      invariant multiset(sorted) == multiset(rows[..i])
      invariant forall key :: WithKey(sorted, key) == WithKey(rows[..i], key)
    {
      assert rows[..i + 1] == rows[..i] + [rows[i]];
      forall key
        ensures WithKey(rows[..i + 1], key) == WithKey(rows[..i], key) + WithKey([rows[i]], key)
      {
        WithKeyAppend(rows[..i], [rows[i]], key);
      }
      sorted := InsertStable(sorted, rows[i]);
      i := i + 1;
    }
    assert rows[..i] == rows;
  }

  /** In a sorted sequence the first row has a least key. */
  lemma FirstIsLeast(rows: seq<ReportRow>, row: ReportRow)
    requires Sorted(rows) && rows != [] && row in rows
    ensures !Below(row.sortKey, rows[0].sortKey)
  {
    var j :| 0 <= j < |rows| && rows[j] == row;
    if j == 0 {
      BelowIrreflexive(row.sortKey);
    }
  }

  lemma SortedTail(rows: seq<ReportRow>)
    requires Sorted(rows) && rows != []
    ensures Sorted(rows[1..])
  {
    forall i, j | 0 <= i < j < |rows| - 1
      ensures !Below(rows[1..][j].sortKey, rows[1..][i].sortKey)
    {
      assert rows[1..][i] == rows[i + 1] && rows[1..][j] == rows[j + 1];
    }
  }

  /** The rows with the key of the first row start with that row. */
  lemma WithKeyHead(rows: seq<ReportRow>, key: string)
    requires rows != []
    ensures WithKey(rows, key) == if rows[0].sortKey == key then [rows[0]] + WithKey(rows[1..], key) else WithKey(rows[1..], key)
  {
  }

  /**
    Sortedness and stability leave no choice: two stable sorts of the same
    input are equal, so the result is the one Python's `sorted` returns.
  */
  lemma {:induction false} StableSortUnique(a: seq<ReportRow>, b: seq<ReportRow>)
    requires Sorted(a) && Sorted(b)
    requires forall key :: WithKey(a, key) == WithKey(b, key)
    ensures a == b
    decreases |a|
  {
    if a == [] {
      if b != [] {
        WithKeyMembers(b, b[0].sortKey);
        assert false;
      }
    } else {
      var ka := a[0].sortKey;
      WithKeyMembers(a, ka);
      WithKeyMembers(b, ka);
      assert a[0] in WithKey(a, ka);
      assert a[0] in b;
      var kb := b[0].sortKey;
      WithKeyMembers(a, kb);
      WithKeyMembers(b, kb);
      assert b[0] in WithKey(b, kb);
      assert b[0] in a;
      FirstIsLeast(b, a[0]);
      FirstIsLeast(a, b[0]);
      assert ka == kb by {
        if ka != kb {
          BelowTotal(ka, kb);
        }
      }
      WithKeyHead(a, ka);
      WithKeyHead(b, ka);
      assert WithKey(a, ka)[0] == a[0] && WithKey(b, ka)[0] == b[0];
      assert a[0] == b[0];
      forall key
        ensures WithKey(a[1..], key) == WithKey(b[1..], key)
      {
        WithKeyHead(a, key);
        WithKeyHead(b, key);
        if key == ka {
          assert [a[0]] + WithKey(a[1..], key) == [b[0]] + WithKey(b[1..], key);
          assert ([a[0]] + WithKey(a[1..], key))[1..] == WithKey(a[1..], key);
          assert ([b[0]] + WithKey(b[1..], key))[1..] == WithKey(b[1..], key);
        }
      }
      SortedTail(a);
      SortedTail(b);
      StableSortUnique(a[1..], b[1..]);
      assert a == [a[0]] + a[1..] && b == [b[0]] + b[1..];
    }
  }
}
