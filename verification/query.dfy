/** The two query shapes the export issues against a table, as pure functions
    over sequences of rows.

    SQL gives no row order without ORDER BY; the model assumes the store
    returns the selected rows in table order, so a selection is an
    order-preserving filter. */
module Query {

  /** `select * from T where keep(row)`. What it returns is stated by
      `WhereContents`. */
  function Where<T(!new)>(rows: seq<T>, keep: T -> bool): (r: seq<T>)
    ensures |r| <= |rows|
  {
    if |rows| == 0 then []
    else (if keep(rows[0]) then [rows[0]] else []) + Where(rows[1..], keep)
  }

  /** A selection holds each row of the table that meets the condition,
      unchanged and exactly as often as the table holds it, and no other row. */
  lemma {:induction false} WhereContents<T(!new)>(rows: seq<T>, keep: T -> bool)
    ensures forall x :: x in Where(rows, keep) <==> x in rows && keep(x)
    ensures forall x :: multiset(Where(rows, keep))[x] == if keep(x) then multiset(rows)[x] else 0
    ensures multiset(Where(rows, keep)) <= multiset(rows)
  {
    if |rows| > 0 {
      WhereContents(rows[1..], keep);
      assert rows == [rows[0]] + rows[1..];
    }
  }

  /** The selection distributes over concatenation of tables: rows keep their
      relative order and each part is filtered on its own. */
  lemma {:induction false} WhereAppend<T(!new)>(a: seq<T>, b: seq<T>, keep: T -> bool)
    ensures Where(a + b, keep) == Where(a, keep) + Where(b, keep)
  {
    if |a| == 0 {
      assert a + b == b;
    } else {
      var head := if keep(a[0]) then [a[0]] else [];
      assert (a + b)[0] == a[0] && (a + b)[1..] == a[1..] + b;
      assert Where(a + b, keep) == head + Where(a[1..] + b, keep);
      WhereAppend(a[1..], b, keep);
      assert Where(a, keep) == head + Where(a[1..], keep);
      assert head + (Where(a[1..], keep) + Where(b, keep))
          == (head + Where(a[1..], keep)) + Where(b, keep);
    }
  }

  /** A table whose every row meets the condition is selected whole. */
  lemma {:induction false} WhereKeepsAll<T(!new)>(rows: seq<T>, keep: T -> bool)
    requires forall i :: 0 <= i < |rows| ==> keep(rows[i])
    ensures Where(rows, keep) == rows
  {
    if |rows| > 0 {
      WhereKeepsAll(rows[1..], keep);
      assert rows == [rows[0]] + rows[1..];
    }
  }

  /** Two conditions that agree on every row of a table select the same rows. */
  lemma {:induction false} WhereSamePred<T(!new)>(rows: seq<T>, a: T -> bool, b: T -> bool)
    requires forall i :: 0 <= i < |rows| ==> a(rows[i]) == b(rows[i])
    ensures Where(rows, a) == Where(rows, b)
  {
    if |rows| > 0 {
      assert forall i :: 0 <= i < |rows[1..]| ==> rows[1..][i] == rows[i + 1];
      WhereSamePred(rows[1..], a, b);
    }
  }

  /** Selecting again with the same condition changes nothing. */
  lemma WhereIdempotent<T(!new)>(rows: seq<T>, keep: T -> bool)
    ensures Where(Where(rows, keep), keep) == Where(rows, keep)
  {
    var w := Where(rows, keep);
    WhereContents(rows, keep);
    assert forall i :: 0 <= i < |w| ==> w[i] in w;
    WhereKeepsAll(w, keep);
  }

  /** `rows.map(f)`: one entry per row, in row order. */
  function Project<T(!new), U(!new)>(rows: seq<T>, f: T -> U): (r: seq<U>)
    ensures |r| == |rows| && forall i :: 0 <= i < |rows| ==> r[i] == f(rows[i])
    ensures forall y :: y in r <==> exists x :: x in rows && f(x) == y
  {
    if |rows| == 0 then []
    else
      assert rows == [rows[0]] + rows[1..];
      [f(rows[0])] + Project(rows[1..], f)
  }
}
