/**
 * Compressed-row ("CSR") connectivity: an offset index plus a flattened list.
 * Row i of (idx, lst) is lst[idx[i]..idx[i+1]].  The join mesh stores its
 * face -> vertex connectivity this way, and the edge structure stores its
 * vertex -> adjacent-vertex index this way.
 */
module Csr {

  /** idx is an offset index over a flat list of length len. */
  predicate IsIndex(idx: seq<int>, len: int)
  {
    && |idx| >= 1
    && idx[0] == 0
    && idx[|idx| - 1] == len
    && forall i, j :: 0 <= i <= j < |idx| ==> idx[i] <= idx[j]
  }

  /** Row i of the connectivity (idx, lst). */
  function Row<T>(idx: seq<int>, lst: seq<T>, i: int): (r: seq<T>)
    requires IsIndex(idx, |lst|)
    requires 0 <= i < |idx| - 1
    ensures |r| == idx[i + 1] - idx[i]
    ensures forall k :: 0 <= k < |r| ==> r[k] == lst[idx[i] + k]
  {
    lst[idx[i]..idx[i + 1]]
  }

  /** The rows of a CSR connectivity, as a sequence of sequences. */
  function Unpack<T>(idx: seq<int>, lst: seq<T>): (rows: seq<seq<T>>)
    requires IsIndex(idx, |lst|)
    ensures |rows| == |idx| - 1
    ensures forall i :: 0 <= i < |rows| ==> rows[i] == lst[idx[i]..idx[i + 1]]
  {
    seq(|idx| - 1, i requires 0 <= i < |idx| - 1 => Row(idx, lst, i))
  }

  /** All rows concatenated, first row first. */
  function Flatten<T>(rows: seq<seq<T>>): seq<T>
  {
    if rows == [] then [] else Flatten(rows[..|rows| - 1]) + rows[|rows| - 1]
  }

  /** The offset index of the concatenation of rows. */
  function Offsets<T>(rows: seq<seq<T>>): (idx: seq<int>)
    ensures |idx| == |rows| + 1 && idx[0] == 0 && idx[|rows|] == |Flatten(rows)|
  {
    if rows == [] then [0] else Offsets(rows[..|rows| - 1]) + [|Flatten(rows)|]
  }

  /** The offsets of any list of rows form an index over the flattened rows. */
  lemma {:induction false} OffsetsIsIndex<T>(rows: seq<seq<T>>)
    ensures IsIndex(Offsets(rows), |Flatten(rows)|)
  {
    if rows != [] {
      var front := rows[..|rows| - 1];
      OffsetsIsIndex(front);
      var idx, idx0 := Offsets(rows), Offsets(front);
      assert idx == idx0 + [|Flatten(rows)|];
      forall i, j | 0 <= i <= j < |idx| ensures idx[i] <= idx[j] {
        if j == |idx0| && i < j {
          assert idx0[i] <= idx0[|idx0| - 1];
        }
      }
    }
  }

  /** Packing rows and unpacking the result gives the rows back. */
  lemma {:induction false} PackUnpack<T>(rows: seq<seq<T>>)
    ensures IsIndex(Offsets(rows), |Flatten(rows)|)
    ensures Unpack(Offsets(rows), Flatten(rows)) == rows
  {
    OffsetsIsIndex(rows);
    if rows != [] {
      var front := rows[..|rows| - 1];
      var last := rows[|rows| - 1];
      assert rows == front + [last];
      PackUnpack(front);
      var un := Unpack(Offsets(rows), Flatten(rows));
      forall i | 0 <= i < |rows| ensures un[i] == rows[i] {
        UnpackSnoc(front, last, i);
      }
    }
  }

  /** Row i of the packing of front + [last], given that front unpacks to itself. */
  lemma UnpackSnoc<T>(front: seq<seq<T>>, last: seq<T>, i: int)
    requires IsIndex(Offsets(front), |Flatten(front)|)
    requires Unpack(Offsets(front), Flatten(front)) == front
    requires 0 <= i <= |front|
    ensures IsIndex(Offsets(front + [last]), |Flatten(front + [last])|)
    ensures Unpack(Offsets(front + [last]), Flatten(front + [last]))[i] == (front + [last])[i]
  {
    var rows := front + [last];
    OffsetsIsIndex(rows);
    assert rows[..|rows| - 1] == front;
    var idx, lst := Offsets(rows), Flatten(rows);
    var idx0, lst0 := Offsets(front), Flatten(front);
    assert idx == idx0 + [|lst0| + |last|];
    assert lst == lst0 + last;
    if i < |front| {
      assert idx[i] == idx0[i] && idx[i + 1] == idx0[i + 1];
      assert 0 <= idx0[i] <= idx0[i + 1] <= idx0[|idx0| - 1];
      SliceOfConcat(lst0, last, idx0[i], idx0[i + 1]);
      assert Unpack(idx0, lst0)[i] == front[i];
    } else {
      assert idx[i] == |lst0| && idx[i + 1] == |lst|;
      assert lst[|lst0|..] == last;
    }
  }

  /** A slice within the first part of a concatenation is a slice of that part. */
  lemma SliceOfConcat<T>(a: seq<T>, b: seq<T>, lo: int, hi: int)
    requires 0 <= lo <= hi <= |a|
    ensures (a + b)[lo..hi] == a[lo..hi]
  {
  }

  /** Dropping the last row of a CSR connectivity keeps it well formed. */
  lemma IndexPrefix<T>(idx: seq<int>, lst: seq<T>)
    requires IsIndex(idx, |lst|) && |idx| > 1
    ensures 0 <= idx[|idx| - 2] <= |lst|
    ensures IsIndex(idx[..|idx| - 1], |lst[..idx[|idx| - 2]]|)
  {
    assert idx[0] <= idx[|idx| - 2] <= idx[|idx| - 1];
  }

  /** The rows of a connectivity are the rows of its prefix followed by its last row. */
  lemma UnpackPrefix<T>(idx: seq<int>, lst: seq<T>)
    requires IsIndex(idx, |lst|) && |idx| > 1
    ensures 0 <= idx[|idx| - 2] <= |lst|
    ensures IsIndex(idx[..|idx| - 1], |lst[..idx[|idx| - 2]]|)
    ensures Unpack(idx, lst)[..|idx| - 2] == Unpack(idx[..|idx| - 1], lst[..idx[|idx| - 2]])
    ensures Unpack(idx, lst)[|idx| - 2] == lst[idx[|idx| - 2]..]
  {
    IndexPrefix(idx, lst);
    var n := |idx| - 1;
    var rows, rows0 := Unpack(idx, lst), Unpack(idx[..n], lst[..idx[n - 1]]);
    forall i | 0 <= i < n - 1 ensures rows[i] == rows0[i] {
      assert idx[i + 1] <= idx[n - 1];
    }
  }

  /** A CSR connectivity is the packing of its own rows: the representation is unique. */
  lemma {:induction false} UnpackPack<T>(idx: seq<int>, lst: seq<T>)
    requires IsIndex(idx, |lst|)
    ensures Offsets(Unpack(idx, lst)) == idx
    ensures Flatten(Unpack(idx, lst)) == lst
    decreases |idx|
  {
    var rows := Unpack(idx, lst);
    if |idx| == 1 {
      assert rows == [];
      assert idx == [0];
      assert lst == [];
    } else {
      var n := |idx| - 1;
      IndexPrefix(idx, lst);
      UnpackPack(idx[..n], lst[..idx[n - 1]]);
      FlattenUnpackStep(idx, lst);
      OffsetsUnpackStep(idx, lst);
    }
  }

  /** The flat list is rebuilt from its rows when the prefix's is. */
  lemma FlattenUnpackStep<T>(idx: seq<int>, lst: seq<T>)
    requires IsIndex(idx, |lst|) && |idx| > 1
    requires 0 <= idx[|idx| - 2] <= |lst| && IsIndex(idx[..|idx| - 1], |lst[..idx[|idx| - 2]]|)
    requires Flatten(Unpack(idx[..|idx| - 1], lst[..idx[|idx| - 2]])) == lst[..idx[|idx| - 2]]
    ensures Flatten(Unpack(idx, lst)) == lst
  {
    var n := |idx| - 1;
    UnpackPrefix(idx, lst);
    var rows := Unpack(idx, lst);
    assert Flatten(rows) == Flatten(rows[..n - 1]) + rows[n - 1];
    assert lst[..idx[n - 1]] + lst[idx[n - 1]..] == lst;
  }

  /** The index is rebuilt from the rows when the prefix's is. */
  lemma OffsetsUnpackStep<T>(idx: seq<int>, lst: seq<T>)
    requires IsIndex(idx, |lst|) && |idx| > 1
    requires 0 <= idx[|idx| - 2] <= |lst| && IsIndex(idx[..|idx| - 1], |lst[..idx[|idx| - 2]]|)
    requires Offsets(Unpack(idx[..|idx| - 1], lst[..idx[|idx| - 2]])) == idx[..|idx| - 1]
    requires Flatten(Unpack(idx, lst)) == lst
    ensures Offsets(Unpack(idx, lst)) == idx
  {
    var n := |idx| - 1;
    UnpackPrefix(idx, lst);
    var rows := Unpack(idx, lst);
    assert Offsets(rows) == Offsets(rows[..n - 1]) + [|lst|];
    assert idx[..n] + [|lst|] == idx;
  }

  /** Reading entry k of row i reads the flat list at offset idx[i] + k. */
  lemma RowEntry<T>(rows: seq<seq<T>>, i: int, k: int)
    requires 0 <= i < |rows| && 0 <= k < |rows[i]|
    ensures |Offsets(rows)| == |rows| + 1
    ensures 0 <= Offsets(rows)[i] && Offsets(rows)[i] + k < Offsets(rows)[i + 1] <= |Flatten(rows)|
    ensures Flatten(rows)[Offsets(rows)[i] + k] == rows[i][k]
  {
    PackUnpack(rows);
    var idx := Offsets(rows);
    assert idx[i + 1] <= idx[|idx| - 1];
    assert Unpack(idx, Flatten(rows))[i] == rows[i];
  }

  /** Row i occupies exactly |rows[i]| entries of the flat list, from offset Offsets(rows)[i]. */
  lemma RowSpan<T>(rows: seq<seq<T>>, i: int)
    requires 0 <= i < |rows|
    ensures |Offsets(rows)| == |rows| + 1
    ensures 0 <= Offsets(rows)[i] <= Offsets(rows)[i + 1] <= |Flatten(rows)|
    ensures Offsets(rows)[i + 1] - Offsets(rows)[i] == |rows[i]|
  {
    PackUnpack(rows);
    var idx := Offsets(rows);
    assert idx[0] <= idx[i] <= idx[i + 1] <= idx[|idx| - 1];
    assert Unpack(idx, Flatten(rows))[i] == rows[i];
  }

  /** An entry of the flat list within the span of row i is an entry of row i. */
  lemma RowMember<T>(rows: seq<seq<T>>, i: int, k: int)
    requires 0 <= i < |rows|
    requires |Offsets(rows)| == |rows| + 1 && Offsets(rows)[i] <= k < Offsets(rows)[i + 1]
    ensures 0 <= k < |Flatten(rows)|
    ensures Flatten(rows)[k] in rows[i]
  {
    RowSpan(rows, i);
    var m := k - Offsets(rows)[i];
    RowEntry(rows, i, m);
  }

  /** An entry of the flattened rows is an entry of one of the rows, and conversely. */
  lemma {:induction false} FlattenMember<T>(rows: seq<seq<T>>, x: T)
    ensures x in Flatten(rows) <==> exists i :: 0 <= i < |rows| && x in rows[i]
  {
    if rows != [] {
      var front := rows[..|rows| - 1];
      FlattenMember(front, x);
      assert Flatten(rows) == Flatten(front) + rows[|rows| - 1];
      if x in Flatten(front) {
        var i :| 0 <= i < |front| && x in front[i];
        assert rows[i] == front[i];
      }
      if exists i :: 0 <= i < |rows| && x in rows[i] {
        var i :| 0 <= i < |rows| && x in rows[i];
        if i < |front| { assert front[i] == rows[i]; }
      }
    }
  }

  /**
   * Assembles the CSR form of a list of rows, one row at a time, as the
   * mesh routines do when they rebuild face_vtx_idx and face_vtx_lst.
   */
  method Pack<T>(rows: seq<seq<T>>) returns (idx: seq<int>, lst: seq<T>)
    ensures idx == Offsets(rows) && lst == Flatten(rows)
    ensures IsIndex(idx, |lst|) && |idx| == |rows| + 1
    ensures Unpack(idx, lst) == rows
  {
    idx, lst := [0], [];
    var i := 0;
    while i < |rows|
      invariant 0 <= i <= |rows|
      invariant idx == Offsets(rows[..i]) && lst == Flatten(rows[..i])
    {
      assert rows[..i + 1][..i] == rows[..i];
      lst := lst + rows[i];
      idx := idx + [|lst|];
      i := i + 1;
    }
    assert rows[..i] == rows;
    PackUnpack(rows);
  }
}
