/**
 * Faces of the join mesh as values: a global face number with the list of
 * its vertex ids.  Ordering of the faces by global number with removal of
 * redundancies (face_order), and the collapse of degenerate edges of a face
 * (clean).
 */
module JoinFaces {
  import opened Ordering

  datatype Face = Face(gnum: nat, vtx: seq<int>)

  function GnumOf(f: Face): nat
  {
    f.gnum
  }

  /** The vertex that follows position j in face f, wrapping around. */
  function Next(f: seq<int>, j: int): int
    requires 0 <= j < |f|
  {
    if j + 1 < |f| then f[j + 1] else f[0]
  }

  // ----- face_order -----

  /** Faces ordered by global face number; of faces with the same number the first is kept. */
  function FaceOrder(fs: seq<Face>): (r: seq<Face>)
  {
    SortDedup(GnumOf, fs)
  }

  /**
   * After face_order the global face numbers increase strictly, every face
   * is one of the input faces, and every global face number of the input
   * is still present.
   */
  lemma FaceOrderFacts(fs: seq<Face>)
    ensures var r := FaceOrder(fs);
      && (forall i, j :: 0 <= i < j < |r| ==> r[i].gnum < r[j].gnum)
      && (forall f :: f in r ==> f in fs)
      && (forall f :: f in fs ==> exists h :: h in r && h.gnum == f.gnum)
  {
    var r := FaceOrder(fs);
    forall i, j | 0 <= i < j < |r| ensures r[i].gnum < r[j].gnum {
      assert GnumOf(r[i]) < GnumOf(r[j]);
    }
    forall f | f in fs ensures exists h :: h in r && h.gnum == f.gnum {
      assert HasKey(GnumOf, GnumOf(f), fs);
      var h :| h in r && GnumOf(h) == GnumOf(f);
    }
  }

  /** The face kept for a global number is the first input face with that number. */
  lemma FaceOrderKeepsFirst(fs: seq<Face>, f: Face)
    requires f in FaceOrder(fs)
    ensures exists i :: 0 <= i < |fs| && fs[i] == f && forall j :: 0 <= j < i ==> fs[j].gnum != f.gnum
  {
    SortDedupKeepsFirst(GnumOf, fs, f);
    var i := FirstWithKey(GnumOf, GnumOf(f), fs);
    assert forall j :: 0 <= j < i ==> GnumOf(fs[j]) != GnumOf(f);
  }

  /** Ordering already ordered faces changes nothing. */
  lemma FaceOrderIdempotent(fs: seq<Face>)
    ensures FaceOrder(FaceOrder(fs)) == FaceOrder(fs)
  {
    SortDedupSorted(GnumOf, FaceOrder(fs));
  }

  /**
   * When copies of a face with the same global number are equal, the
   * ordered faces depend only on which faces were received: not on their
   * order of arrival nor on how many copies arrived.
   */
  lemma FaceOrderDeterministic(fs: seq<Face>, gs: seq<Face>)
    requires forall i, j :: 0 <= i < |fs| && 0 <= j < |fs| && fs[i].gnum == fs[j].gnum ==> fs[i] == fs[j]
    requires forall f :: f in fs <==> f in gs
    ensures FaceOrder(fs) == FaceOrder(gs)
  {
    assert KeyDetermines(GnumOf, fs);
    SortDedupDeterministic(GnumOf, fs, gs);
  }

  // ----- clean -----

  /** The entries of c that differ from the entry after them (the last entry has none). */
  function KeepDistinct(c: seq<int>): (r: seq<int>)
    ensures |r| < |c| || |c| == 0 == |r|
  {
    if |c| <= 1 then [] else (if c[0] != c[1] then [c[0]] else []) + KeepDistinct(c[1..])
  }

  /**
   * What KeepDistinct keeps: no two adjacent entries are equal; it starts
   * with the first entry of c and ends with an entry other than the last
   * one of c; and it keeps nothing only when c is constant.
   */
  lemma KeepDistinctFacts(c: seq<int>)
    requires |c| >= 1
    ensures var r := KeepDistinct(c);
      && (forall i :: 0 <= i < |r| - 1 ==> r[i] != r[i + 1])
      && (|r| > 0 ==> r[0] == c[0] && r[|r| - 1] != c[|c| - 1])
      && (|r| == 0 ==> forall i :: 0 <= i < |c| ==> c[i] == c[0])
      && (forall x :: x in r ==> x in c)
  {
    KeepDistinctNoRepeat(c);
    KeepDistinctEnds(c);
    KeepDistinctMember(c);
  }

  /** KeepDistinct keeps only entries of c. */
  lemma {:induction false} KeepDistinctMember(c: seq<int>)
    ensures forall x :: x in KeepDistinct(c) ==> x in c
  {
    if |c| > 1 {
      KeepDistinctMember(c[1..]);
      assert forall x :: x in c[1..] ==> x in c;
    }
  }

  /**
   * KeepDistinct starts with the first entry of c and does not end with the
   * last one; it is empty only for a constant c.
   */
  lemma {:induction false} KeepDistinctEnds(c: seq<int>)
    requires |c| >= 1
    ensures var r := KeepDistinct(c);
      && (|r| > 0 ==> r[0] == c[0] && r[|r| - 1] != c[|c| - 1])
      && (|r| == 0 ==> forall i :: 0 <= i < |c| ==> c[i] == c[0])
  {
    if |c| > 1 {
      var t := c[1..];
      KeepDistinctEnds(t);
      var r0 := KeepDistinct(t);
      assert t[|t| - 1] == c[|c| - 1];
      if c[0] != c[1] {
        assert r0 == [] ==> c[|c| - 1] == c[1];
      } else {
        assert forall i :: 1 <= i < |c| ==> c[i] == t[i - 1];
      }
    }
  }

  /** No two adjacent entries of KeepDistinct(c) are equal. */
  lemma {:induction false} KeepDistinctNoRepeat(c: seq<int>)
    requires |c| >= 1
    ensures var r := KeepDistinct(c); forall i :: 0 <= i < |r| - 1 ==> r[i] != r[i + 1]
  {
    if |c| > 1 {
      var t := c[1..];
      KeepDistinctNoRepeat(t);
      KeepDistinctEnds(t);
      var r0 := KeepDistinct(t);
      if c[0] != c[1] {
        var r := [c[0]] + r0;
        assert r0 != [] ==> r0[0] == c[1];
        assert forall i :: 1 <= i < |r| - 1 ==> r[i] == r0[i - 1] && r[i + 1] == r0[i];
      }
    }
  }

  /** clean on one face: a vertex is kept when it differs from the next one, wrapping around. */
  function Collapse(f: seq<int>): (r: seq<int>)
    ensures |r| <= |f|
  {
    if f == [] then [] else KeepDistinct(f + [f[0]])
  }

  /**
   * No degenerate edge remains: each vertex of a collapsed face differs from
   * the next one, wrapping around (so it never keeps exactly one vertex), and
   * every vertex kept is a vertex of the face.
   */
  lemma CollapseFacts(f: seq<int>)
    ensures forall j :: 0 <= j < |Collapse(f)| ==> Collapse(f)[j] != Next(Collapse(f), j)
    ensures |Collapse(f)| != 1
    ensures forall x :: x in Collapse(f) ==> x in f
  {
    if f != [] {
      var c := f + [f[0]];
      KeepDistinctFacts(c);
      var r := Collapse(f);
      assert forall x :: x in c ==> x in f;
      if |r| > 0 {
        assert r[0] == f[0] && r[|r| - 1] != f[0];
      }
    }
  }

  /** When c has no two equal adjacent entries, KeepDistinct drops only the last one. */
  lemma {:induction false} KeepDistinctAll(c: seq<int>)
    requires |c| >= 1
    requires forall i :: 0 <= i < |c| - 1 ==> c[i] != c[i + 1]
    ensures KeepDistinct(c) == c[..|c| - 1]
  {
    if |c| > 1 {
      KeepDistinctAll(c[1..]);
      assert [c[0]] + c[1..][..|c| - 2] == c[..|c| - 1];
    }
  }

  /** A face without degenerate edge is left as it is. */
  lemma CollapseClean(f: seq<int>)
    requires forall j :: 0 <= j < |f| ==> f[j] != Next(f, j)
    ensures Collapse(f) == f
  {
    if f != [] {
      var c := f + [f[0]];
      forall i | 0 <= i < |c| - 1 ensures c[i] != c[i + 1] {
        assert c[i] == f[i] && c[i + 1] == Next(f, i);
      }
      KeepDistinctAll(c);
      assert c[..|c| - 1] == f;
    }
  }

  /** The repeated vertex of [A, B, B, C] collapses into one. */
  lemma CollapseRepeated(a: int, b: int, c: int)
    requires a != b && b != c && c != a
    ensures Collapse([a, b, b, c]) == [a, b, c]
  {
    var s := [a, b, b, c, a];
    assert [a, b, b, c] + [a] == s;
    assert s[1..] == [b, b, c, a];
    assert s[1..][1..] == [b, c, a];
    assert s[1..][1..][1..] == [c, a];
    assert s[1..][1..][1..][1..] == [a];
    assert KeepDistinct([c, a]) == [c];
    assert KeepDistinct([b, c, a]) == [b, c];
    assert KeepDistinct([b, b, c, a]) == [b, c];
  }
}
