/**
 * Rewriting of the faces of the join mesh after the merge step: vertex ids
 * are renumbered through old2new and, for each edge a face traverses, the
 * new vertices listed for that edge are inserted between its two ends, in
 * the orientation in which the face traverses the edge.
 */
module JoinUpdate {
  import opened Csr
  import opened JoinFaces
  import opened JoinEdges

  /**
   * The inputs of the update besides the mesh and the edges: the index on
   * edges of the new vertices, the list of new vertices of each edge, the
   * new number of vertices and the old -> new vertex id map.
   */
  datatype UpdatePlan = UpdatePlan(
    edgeIndex: seq<int>,
    edgeNewVtxLst: seq<int>,
    nNewVertices: int,
    old2new: seq<int>)

  /**
   * The plan fits the edges and a mesh of nOld vertices: one list per edge,
   * and new ids below the new number of vertices.
   */
  ghost predicate PlanValid(e: Edges, p: UpdatePlan, nOld: int)
  {
    && EdgesValid(e)
    && |p.edgeIndex| == e.nEdges + 1
    && IsIndex(p.edgeIndex, |p.edgeNewVtxLst|)
    && |p.old2new| == nOld
    && p.nNewVertices >= 0
    && (forall i :: 0 <= i < |p.old2new| ==> 0 <= p.old2new[i] < p.nNewVertices)
    && (forall k :: 0 <= k < |p.edgeNewVtxLst| ==> 0 <= p.edgeNewVtxLst[k] < p.nNewVertices)
  }

  /** Every vertex of f is an old vertex and every couple of consecutive vertices is an edge. */
  ghost predicate FaceOnEdges(f: seq<int>, e: Edges, nOld: int)
  {
    forall j :: 0 <= j < |f| ==>
      && 0 <= f[j] < nOld
      && ((f[j], Next(f, j)) in e.def || (Next(f, j), f[j]) in e.def)
  }

  /** s in reverse order. */
  function Reverse(s: seq<int>): (r: seq<int>)
    ensures |r| == |s| && forall i :: 0 <= i < |s| ==> r[i] == s[|s| - 1 - i]
  {
    if s == [] then [] else Reverse(s[1..]) + [s[0]]
  }

  /** l as it is when forward holds, reversed otherwise. */
  function Oriented(l: seq<int>, forward: bool): (r: seq<int>)
    ensures |r| == |l| && forall x :: x in r ==> x in l
    ensures forall k :: 0 <= k < |l| ==> r[k] == if forward then l[k] else l[|l| - 1 - k]
  {
    if forward then l else (assert forall x :: x in Reverse(l) ==> x in l; Reverse(l))
  }

  /** The new vertices of the edge of signed number num, in the orientation of num. */
  function EdgeVertices(e: Edges, p: UpdatePlan, num: int): (r: seq<int>)
    requires EdgesValid(e) && |p.edgeIndex| == e.nEdges + 1 && IsIndex(p.edgeIndex, |p.edgeNewVtxLst|)
    requires num != 0 && -e.nEdges <= num <= e.nEdges
    ensures forall x :: x in r ==> x in p.edgeNewVtxLst
  {
    var id := if num > 0 then num - 1 else -num - 1;
    assert p.edgeIndex[0] <= p.edgeIndex[id] <= p.edgeIndex[id + 1] <= p.edgeIndex[|p.edgeIndex| - 1];
    Oriented(p.edgeNewVtxLst[p.edgeIndex[id]..p.edgeIndex[id + 1]], num > 0)
  }

  /**
   * The vertices of vs to place after last and before stop: an entry equal
   * to the vertex just placed or to stop is skipped.
   */
  function Insertions(vs: seq<int>, last: int, stop: int): (r: seq<int>)
    ensures forall x :: x in r ==> x in vs && x != stop
    ensures |r| > 0 ==> r[0] != last
    ensures forall i :: 0 <= i < |r| - 1 ==> r[i] != r[i + 1]
  {
    if vs == [] then []
    else if vs[0] == last || vs[0] == stop then Insertions(vs[1..], last, stop)
    else
      var r0 := Insertions(vs[1..], vs[0], stop);
      assert forall x :: x in r0 ==> x in vs;
      [vs[0]] + r0
  }

  /** The vertex a followed by the vertices of vs placed between a and b. */
  function SegmentOf(a: int, b: int, vs: seq<int>): (r: seq<int>)
    ensures |r| > 0 && r[0] == a
    ensures forall x :: x in r ==> x == a || x in vs
    ensures forall k :: 1 <= k < |r| ==> r[k] in vs && r[k] != b
  {
    var ins := Insertions(vs, a, b);
    var r := [a] + ins;
    assert forall k :: 1 <= k < |r| ==> r[k] == ins[k - 1] && ins[k - 1] in ins;
    r
  }

  /**
   * Within a segment no vertex follows its duplicate, and the segment does
   * not end with b, which starts the next segment.
   */
  lemma SegmentOfNoRepeat(a: int, b: int, vs: seq<int>)
    ensures var s := SegmentOf(a, b, vs);
      && (forall i :: 0 <= i < |s| - 1 ==> s[i] != s[i + 1])
      && (|s| > 1 ==> s[|s| - 1] != b)
  {
    var ins := Insertions(vs, a, b);
    var s := [a] + ins;
    assert forall i :: 1 <= i < |s| ==> s[i] == ins[i - 1];
    assert |s| > 1 ==> ins[|ins| - 1] in ins;
  }

  /**
   * The new vertices vs of an edge from a to b can all be placed: none is b,
   * the first is not a and no vertex follows its duplicate.
   */
  predicate Placeable(vs: seq<int>, a: int, b: int)
  {
    && b !in vs
    && (|vs| > 0 ==> vs[0] != a)
    && forall i :: 0 <= i < |vs| - 1 ==> vs[i] != vs[i + 1]
  }

  /** s is t with some entries deleted, the others in their order. */
  predicate Subsequence(s: seq<int>, t: seq<int>)
    decreases |t|
  {
    s == [] || (t != [] && ((s[0] == t[0] && Subsequence(s[1..], t[1..])) || Subsequence(s, t[1..])))
  }

  /** When vs is placeable after last and before stop, every vertex of vs is placed. */
  lemma {:induction false} InsertionsKeepAll(vs: seq<int>, last: int, stop: int)
    requires Placeable(vs, last, stop)
    ensures Insertions(vs, last, stop) == vs
    decreases |vs|
  {
    if vs != [] {
      var rest := vs[1..];
      assert vs[0] != last && vs[0] != stop;
      assert Insertions(vs, last, stop) == [vs[0]] + Insertions(rest, vs[0], stop);
      forall i | 0 <= i < |rest| - 1 ensures rest[i] != rest[i + 1] {
        assert rest[i] == vs[i + 1] && rest[i + 1] == vs[i + 2];
      }
      assert stop !in rest;
      InsertionsKeepAll(rest, vs[0], stop);
      assert vs == [vs[0]] + rest;
    }
  }

  /** Every vertex of vs other than stop and last is placed. */
  lemma {:induction false} InsertionsComplete(vs: seq<int>, last: int, stop: int)
    ensures forall x :: x in vs && x != stop && x != last ==> x in Insertions(vs, last, stop)
    decreases |vs|
  {
    if vs != [] {
      assert forall x :: x in vs ==> x == vs[0] || x in vs[1..];
      if vs[0] == last || vs[0] == stop {
        InsertionsComplete(vs[1..], last, stop);
      } else {
        InsertionsComplete(vs[1..], vs[0], stop);
      }
    }
  }

  /** The placed vertices keep the order they have in vs. */
  lemma {:induction false} InsertionsInOrder(vs: seq<int>, last: int, stop: int)
    ensures Subsequence(Insertions(vs, last, stop), vs)
    decreases |vs|
  {
    if vs != [] {
      if vs[0] == last || vs[0] == stop {
        InsertionsInOrder(vs[1..], last, stop);
      } else {
        var r0 := Insertions(vs[1..], vs[0], stop);
        InsertionsInOrder(vs[1..], vs[0], stop);
        var r := [vs[0]] + r0;
        assert r[0] == vs[0] && r[1..] == r0;
      }
    }
  }

  /**
   * The segment from a to b places the vertices of vs in their order, each
   * one except b; when vs is placeable it is a followed by all of vs.
   */
  lemma SegmentOfPlaces(a: int, b: int, vs: seq<int>)
    ensures var s := SegmentOf(a, b, vs);
      && Subsequence(s[1..], vs)
      && (forall x :: x in vs && x != b ==> x in s)
      && (Placeable(vs, a, b) ==> s == [a] + vs)
  {
    var ins := Insertions(vs, a, b);
    var s := [a] + ins;
    assert s[1..] == ins;
    InsertionsInOrder(vs, a, b);
    InsertionsComplete(vs, a, b);
    if Placeable(vs, a, b) {
      InsertionsKeepAll(vs, a, b);
    }
  }

  /**
   * The part of the new face that position j of f contributes: the new id of
   * f[j], then the new vertices of the edge (f[j], next vertex).
   */
  function Segment(f: seq<int>, j: int, e: Edges, p: UpdatePlan): (r: seq<int>)
    requires PlanValid(e, p, |p.old2new|) && FaceOnEdges(f, e, |p.old2new|)
    requires 0 <= j < |f|
    ensures |r| > 0 && r[0] == p.old2new[f[j]]
    ensures forall k :: 1 <= k < |r| ==> r[k] in p.edgeNewVtxLst && r[k] != p.old2new[Next(f, j)]
  {
    var vs := EdgeVertices(e, p, EdgeNumber(e, f[j], Next(f, j)));
    SegmentOf(p.old2new[f[j]], p.old2new[Next(f, j)], vs)
  }

  function Segments(f: seq<int>, e: Edges, p: UpdatePlan): (r: seq<seq<int>>)
    requires PlanValid(e, p, |p.old2new|) && FaceOnEdges(f, e, |p.old2new|)
    ensures |r| == |f| && forall j :: 0 <= j < |f| ==> r[j] == Segment(f, j, e, p)
  {
    seq(|f|, j requires 0 <= j < |f| => Segment(f, j, e, p))
  }

  /** The face f after the update. */
  function UpdatedFace(f: seq<int>, e: Edges, p: UpdatePlan): seq<int>
    requires PlanValid(e, p, |p.old2new|) && FaceOnEdges(f, e, |p.old2new|)
  {
    Flatten(Segments(f, e, p))
  }

  /** Every vertex of an updated face is a new vertex id. */
  lemma UpdatedFaceBelow(f: seq<int>, e: Edges, p: UpdatePlan)
    requires PlanValid(e, p, |p.old2new|) && FaceOnEdges(f, e, |p.old2new|)
    ensures forall x :: x in UpdatedFace(f, e, p) ==> 0 <= x < p.nNewVertices
  {
    var segs := Segments(f, e, p);
    forall x | x in Flatten(segs) ensures 0 <= x < p.nNewVertices {
      FlattenMember(segs, x);
      var j :| 0 <= j < |segs| && x in segs[j];
      assert x == p.old2new[f[j]] || x in p.edgeNewVtxLst;
    }
  }

  /**
   * The new vertices of the edge from position j, in traversal orientation,
   * appear in the segment of j in their order, each one except the new id of
   * the next face vertex; when they are placeable the segment is the new id
   * of f[j] followed by all of them.
   */
  lemma SegmentPlaces(f: seq<int>, j: int, e: Edges, p: UpdatePlan)
    requires PlanValid(e, p, |p.old2new|) && FaceOnEdges(f, e, |p.old2new|)
    requires 0 <= j < |f|
    ensures var vs := EdgeVertices(e, p, EdgeNumber(e, f[j], Next(f, j)));
      var s := Segment(f, j, e, p);
      && Subsequence(s[1..], vs)
      && (forall x :: x in vs && x != p.old2new[Next(f, j)] ==> x in s)
      && (Placeable(vs, p.old2new[f[j]], p.old2new[Next(f, j)]) ==> s == [p.old2new[f[j]]] + vs)
  {
    SegmentOfPlaces(p.old2new[f[j]], p.old2new[Next(f, j)], EdgeVertices(e, p, EdgeNumber(e, f[j], Next(f, j))));
  }

  /** Every new vertex of every edge the face traverses is in the updated face. */
  lemma UpdatedFaceHasEdgeVertices(f: seq<int>, e: Edges, p: UpdatePlan, j: int, x: int)
    requires PlanValid(e, p, |p.old2new|) && FaceOnEdges(f, e, |p.old2new|)
    requires 0 <= j < |f|
    requires x in EdgeVertices(e, p, EdgeNumber(e, f[j], Next(f, j)))
    ensures x in UpdatedFace(f, e, p)
  {
    var segs := Segments(f, e, p);
    SegmentPlaces(f, j, e, p);
    FlattenMember(segs, x);
    if x == p.old2new[Next(f, j)] {
      var k := if j + 1 < |f| then j + 1 else 0;
      assert x == Segment(f, k, e, p)[0] && x in segs[k];
    } else {
      assert x in segs[j];
    }
  }

  /**
   * When the new vertices of every traversed edge are placeable, the updated
   * face is, position after position, the new id of the face vertex followed
   * by all the new vertices of the edge to the next one.
   */
  lemma UpdatedFaceExact(f: seq<int>, e: Edges, p: UpdatePlan)
    requires PlanValid(e, p, |p.old2new|) && FaceOnEdges(f, e, |p.old2new|)
    requires forall j :: 0 <= j < |f| ==>
               Placeable(EdgeVertices(e, p, EdgeNumber(e, f[j], Next(f, j))), p.old2new[f[j]], p.old2new[Next(f, j)])
    ensures UpdatedFace(f, e, p) ==
              Flatten(seq(|f|, j requires 0 <= j < |f| => [p.old2new[f[j]]] + EdgeVertices(e, p, EdgeNumber(e, f[j], Next(f, j)))))
  {
    var segs := Segments(f, e, p);
    var want := seq(|f|, j requires 0 <= j < |f| => [p.old2new[f[j]]] + EdgeVertices(e, p, EdgeNumber(e, f[j], Next(f, j))));
    forall j | 0 <= j < |f| ensures segs[j] == want[j] {
      SegmentPlaces(f, j, e, p);
    }
    assert segs == want;
  }

  /**
   * Within the segment of position j no vertex follows its duplicate, and the
   * segment does not end with the new id of the next face vertex, which
   * starts the next segment.
   */
  lemma SegmentNoRepeat(f: seq<int>, j: int, e: Edges, p: UpdatePlan)
    requires PlanValid(e, p, |p.old2new|) && FaceOnEdges(f, e, |p.old2new|)
    requires 0 <= j < |f|
    ensures var s := Segment(f, j, e, p);
      && (forall i :: 0 <= i < |s| - 1 ==> s[i] != s[i + 1])
      && (|s| > 1 ==> s[|s| - 1] != p.old2new[Next(f, j)])
  {
    SegmentOfNoRepeat(p.old2new[f[j]], p.old2new[Next(f, j)], EdgeVertices(e, p, EdgeNumber(e, f[j], Next(f, j))));
  }

  /** With no vertex to insert, the update only renumbers the face. */
  lemma UpdatedFaceNoInsert(f: seq<int>, e: Edges, p: UpdatePlan)
    requires PlanValid(e, p, |p.old2new|) && FaceOnEdges(f, e, |p.old2new|)
    requires p.edgeNewVtxLst == []
    ensures UpdatedFace(f, e, p) == seq(|f|, j requires 0 <= j < |f| => p.old2new[f[j]])
  {
    var segs := Segments(f, e, p);
    var m := seq(|f|, j requires 0 <= j < |f| => p.old2new[f[j]]);
    SegmentsSingletons(segs, m);
  }

  /** Segments that are all singletons flatten to the sequence of their entries. */
  lemma {:induction false} SegmentsSingletons(segs: seq<seq<int>>, m: seq<int>)
    requires |segs| == |m| && forall j :: 0 <= j < |m| ==> segs[j] == [m[j]]
    ensures Flatten(segs) == m
    decreases |m|
  {
    if m != [] {
      var k := |m| - 1;
      SegmentsSingletons(segs[..k], m[..k]);
      assert m == m[..k] + [m[k]];
    }
  }

  /**
   * The renumbering and insertion of one given scenario: face [a, b, c] whose
   * edge (a, b) carries the single new vertex x and whose other edges carry
   * none, with ids left as they are, becomes [a, x, b, c].
   */
  lemma UpdateScenario(e: Edges, p: UpdatePlan, a: int, b: int, c: int, x: int)
    requires PlanValid(e, p, |p.old2new|)
    requires 0 <= a < |p.old2new| && 0 <= b < |p.old2new| && 0 <= c < |p.old2new|
    requires (a, b) in e.def || (b, a) in e.def
    requires (b, c) in e.def || (c, b) in e.def
    requires (c, a) in e.def || (a, c) in e.def
    requires FaceOnEdges([a, b, c], e, |p.old2new|)
    requires p.old2new[a] == a && p.old2new[b] == b && p.old2new[c] == c
    requires x != a && x != b
    requires EdgeVertices(e, p, EdgeNumber(e, a, b)) == [x]
    requires EdgeVertices(e, p, EdgeNumber(e, b, c)) == []
    requires EdgeVertices(e, p, EdgeNumber(e, c, a)) == []
    ensures UpdatedFace([a, b, c], e, p) == [a, x, b, c]
  {
    var f := [a, b, c];
    var segs := Segments(f, e, p);
    assert Next(f, 0) == b && Next(f, 1) == c && Next(f, 2) == a;
    SegmentWith(f, 0, e, p, [x]);
    SegmentWith(f, 1, e, p, []);
    SegmentWith(f, 2, e, p, []);
    ScenarioFlatten(segs, a, b, c, x);
  }

  /** The three segments of the scenario flatten to [a, x, b, c]. */
  lemma ScenarioFlatten(segs: seq<seq<int>>, a: int, b: int, c: int, x: int)
    requires |segs| == 3 && x != a && x != b
    requires segs[0] == SegmentOf(a, b, [x]) && segs[1] == SegmentOf(b, c, []) && segs[2] == SegmentOf(c, a, [])
    ensures Flatten(segs) == [a, x, b, c]
  {
    assert Insertions([x], a, b) == [x];
    assert Insertions([], b, c) == [] && Insertions([], c, a) == [];
    assert segs[0] == [a, x] && segs[1] == [b] && segs[2] == [c];
    assert segs == [[a, x], [b], [c]];
    FlattenThree([a, x], [b], [c]);
  }

  /** The segment of position j when the edge from f[j] carries the vertices vs. */
  lemma SegmentWith(f: seq<int>, j: int, e: Edges, p: UpdatePlan, vs: seq<int>)
    requires PlanValid(e, p, |p.old2new|) && FaceOnEdges(f, e, |p.old2new|)
    requires 0 <= j < |f|
    requires EdgeVertices(e, p, EdgeNumber(e, f[j], Next(f, j))) == vs
    ensures Segments(f, e, p)[j] == SegmentOf(p.old2new[f[j]], p.old2new[Next(f, j)], vs)
  {
  }

  /** Three rows flatten to their concatenation. */
  lemma FlattenThree(r0: seq<int>, r1: seq<int>, r2: seq<int>)
    ensures Flatten([r0, r1, r2]) == r0 + r1 + r2
  {
    assert [r0][..0] == [];
    assert Flatten([r0]) == r0;
    assert [r0, r1][..1] == [r0];
    assert Flatten([r0, r1]) == r0 + r1;
    assert [r0, r1, r2][..2] == [r0, r1];
  }

  /**
   * Places the new vertices lst[s..t] of an edge, in the given orientation,
   * after a and before b, skipping a vertex equal to the one just placed or
   * to b.
   */
  method PlaceEdgeVertices(lst: seq<int>, s: int, t: int, forward: bool, a: int, b: int)
    returns (seg: seq<int>)
    requires 0 <= s <= t <= |lst|
    ensures seg == SegmentOf(a, b, Oriented(lst[s..t], forward))
  {
    var vs := Oriented(lst[s..t], forward);
    seg := [a];
    var last, k := a, 0;
    while k < |vs|
      invariant 0 <= k <= |vs|
      invariant seg + Insertions(vs[k..], last, b) == [a] + Insertions(vs, a, b)
    {
      var x := vs[k];
      assert vs[k..][0] == x && vs[k..][1..] == vs[k + 1..];
      if x != last && x != b {
        seg, last := seg + [x], x;
      }
      k := k + 1;
    }
  }

  /** The segment of position j of f, with the edge looked up by GetEdge. */
  method SegmentAt(f: seq<int>, j: int, e: Edges, p: UpdatePlan) returns (seg: seq<int>)
    requires PlanValid(e, p, |p.old2new|) && FaceOnEdges(f, e, |p.old2new|)
    requires 0 <= j < |f|
    ensures seg == Segment(f, j, e, p)
  {
    var v1, v2 := f[j], Next(f, j);
    var num := GetEdge(v1, v2, e);
    var id := if num > 0 then num - 1 else -num - 1;
    var s, t := p.edgeIndex[id], p.edgeIndex[id + 1];
    assert p.edgeIndex[0] <= s <= t <= p.edgeIndex[|p.edgeIndex| - 1];
    seg := PlaceEdgeVertices(p.edgeNewVtxLst, s, t, num > 0, p.old2new[v1], p.old2new[v2]);
  }

  /**
   * cs_join_mesh_update on one face: for each vertex, its new id, then the
   * new vertices of the edge to the next vertex, looked up with GetEdge.
   */
  method UpdateFace(f: seq<int>, e: Edges, p: UpdatePlan) returns (g: seq<int>)
    requires PlanValid(e, p, |p.old2new|) && FaceOnEdges(f, e, |p.old2new|)
    ensures g == UpdatedFace(f, e, p)
  {
    ghost var segs := Segments(f, e, p);
    g := [];
    var j := 0;
    while j < |f|
      invariant 0 <= j <= |f|
      invariant g == Flatten(segs[..j])
    {
      var seg := SegmentAt(f, j, e, p);
      assert segs[..j + 1][..j] == segs[..j];
      assert Flatten(segs[..j + 1]) == Flatten(segs[..j]) + segs[j];
      g := g + seg;
      j := j + 1;
    }
    assert segs[..j] == segs;
  }
}
