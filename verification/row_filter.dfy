/** Dropping full rows from a list of rows, keeping the others in order.
    Both line-clear routines of the game are built on this: the engine's
    `clearLines` (blank cell -1) and the older `clear_full_rows` (blank cell null). */
module RowFilter {

  /** A row is full when no cell holds the blank value. A row with no cells is
      vacuously full, as JavaScript's `[].every(...)` is true. */
  predicate IsFull<T(==)>(row: seq<T>, blank: T) {
    forall i :: 0 <= i < |row| ==> row[i] != blank
  }

  /** Number of full rows. */
  function FullCount<T(==)>(rows: seq<seq<T>>, blank: T): (n: nat)
    ensures n <= |rows|
  {
    if |rows| == 0 then 0
    else (if IsFull(rows[0], blank) then 1 else 0) + FullCount(rows[1..], blank)
  }

  /** The rows that are not full, in their original relative order. */
  function Keep<T(==)>(rows: seq<seq<T>>, blank: T): (kept: seq<seq<T>>)
    ensures |kept| + FullCount(rows, blank) == |rows|
  {
    if |rows| == 0 then []
    else (if IsFull(rows[0], blank) then [] else [rows[0]]) + Keep(rows[1..], blank)
  }

  /** A single row is kept exactly when it is not full. */
  lemma KeepSingle<T>(row: seq<T>, blank: T)
    ensures Keep([row], blank) == if IsFull(row, blank) then [] else [row]
    ensures FullCount([row], blank) == if IsFull(row, blank) then 1 else 0
  {
    assert [row][1..] == [];
  }

  /** Filtering commutes with concatenation. */
  lemma {:induction false} KeepAppend<T>(a: seq<seq<T>>, b: seq<seq<T>>, blank: T)
    ensures Keep(a + b, blank) == Keep(a, blank) + Keep(b, blank)
    ensures FullCount(a + b, blank) == FullCount(a, blank) + FullCount(b, blank)
    decreases |a|
  {
    if |a| == 0 {
      assert a + b == b;
    } else {
      assert (a + b)[0] == a[0];
      assert (a + b)[1..] == a[1..] + b;
      KeepAppend(a[1..], b, blank);
    }
  }

  /** No kept row is full, and every kept row comes from the input. */
  lemma {:induction false} KeptRows<T>(rows: seq<seq<T>>, blank: T)
    ensures forall i :: 0 <= i < |Keep(rows, blank)| ==> !IsFull(Keep(rows, blank)[i], blank)
    ensures forall i :: 0 <= i < |Keep(rows, blank)| ==> Keep(rows, blank)[i] in rows
    decreases |rows|
  {
    if |rows| > 0 {
      KeptRows(rows[1..], blank);
      assert forall r :: r in rows[1..] ==> r in rows;
    }
  }

  /** Taking a full row out of the middle and adding a row that is not full at the end
      adds that row to the kept rows. */
  lemma ReplaceFullKeep<T>(below: seq<seq<T>>, full: seq<T>, above: seq<seq<T>>, extra: seq<T>, blank: T)
    requires IsFull(full, blank) && !IsFull(extra, blank)
    ensures Keep(below + above + [extra], blank) == Keep(below + [full] + above, blank) + [extra]
  {
    DropFull(below, full, above, blank);
    AddKept(below + above, extra, blank);
    KeepAppend(below, above, blank);
  }

  /** A full row contributes nothing to the kept rows. */
  lemma DropFull<T>(below: seq<seq<T>>, full: seq<T>, above: seq<seq<T>>, blank: T)
    requires IsFull(full, blank)
    ensures Keep(below + [full] + above, blank) == Keep(below, blank) + Keep(above, blank)
  {
    KeepAppend(below + [full], above, blank);
    KeepAppend(below, [full], blank);
    KeepSingle(full, blank);
    assert Keep(below, blank) + [] == Keep(below, blank);
  }

  /** A row that is not full, added at the end, is kept at the end. */
  lemma AddKept<T>(rows: seq<seq<T>>, extra: seq<T>, blank: T)
    requires !IsFull(extra, blank)
    ensures Keep(rows + [extra], blank) == Keep(rows, blank) + [extra]
  {
    KeepAppend(rows, [extra], blank);
    KeepSingle(extra, blank);
  }

  /** ... and leaves one full row fewer. */
  lemma ReplaceFull<T>(below: seq<seq<T>>, full: seq<T>, above: seq<seq<T>>, extra: seq<T>, blank: T)
    requires IsFull(full, blank) && !IsFull(extra, blank)
    ensures Keep(below + above + [extra], blank) == Keep(below + [full] + above, blank) + [extra]
    ensures FullCount(below + above + [extra], blank) + 1 == FullCount(below + [full] + above, blank)
  {
    ReplaceFullKeep(below, full, above, extra, blank);
    assert |below + above + [extra]| == |below + [full] + above|;
  }

  /** A list with no full row is left as it is, and a list whose rows are all kept has none. */
  lemma {:induction false} KeepIdentity<T>(rows: seq<seq<T>>, blank: T)
    ensures Keep(rows, blank) == rows <==> FullCount(rows, blank) == 0
    ensures FullCount(rows, blank) == 0 <==> forall i :: 0 <= i < |rows| ==> !IsFull(rows[i], blank)
    decreases |rows|
  {
    if |rows| > 0 {
      KeepIdentity(rows[1..], blank);
      assert forall i :: 1 <= i < |rows| ==> rows[i] == rows[1..][i - 1];
    }
  }

  /** A row is among the kept rows exactly when it occurs in the input and is not full. */
  lemma {:induction false} KeepMembers<T>(rows: seq<seq<T>>, blank: T, row: seq<T>)
    ensures row in Keep(rows, blank) <==> row in rows && !IsFull(row, blank)
    decreases |rows|
  {
    if |rows| > 0 {
      KeepMembers(rows[1..], blank, row);
      assert rows == [rows[0]] + rows[1..];
    }
  }

  /** A row that is not full is kept, at its own index minus the number of full
      rows in front of it: it moves towards the front by exactly that many places. */
  lemma KeepPosition<T>(rows: seq<seq<T>>, blank: T, y: nat)
    requires y < |rows| && !IsFull(rows[y], blank)
    ensures y - FullCount(rows[..y], blank) < |Keep(rows, blank)|
    ensures Keep(rows, blank)[y - FullCount(rows[..y], blank)] == rows[y]
  {
    assert rows == rows[..y] + rows[y..];
    KeepAppend(rows[..y], rows[y..], blank);
    assert rows[y..][0] == rows[y];
  }

  /** Filtering twice is filtering once. */
  lemma KeepIdempotent<T>(rows: seq<seq<T>>, blank: T)
    ensures Keep(Keep(rows, blank), blank) == Keep(rows, blank)
    ensures FullCount(Keep(rows, blank), blank) == 0
  {
    KeptRows(rows, blank);
    KeepIdentity(Keep(rows, blank), blank);
  }
}
