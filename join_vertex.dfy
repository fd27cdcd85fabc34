/**
 * The vertex record of the join mesh (cs_join_vertex_t), the two
 * combinators that the parallel reductions apply to it, and the
 * minimal-tolerance synchronisation of vertices sharing a global number.
 */
module JoinVertex {

  datatype Coord = Coord(x: real, y: real, z: real)

  /**
   * A join vertex: the radius of the sphere in which intersection and merge
   * are possible, its coordinates and its global number.
   */
  datatype Vertex = Vertex(tolerance: real, coord: Coord, gnum: nat)

  /**
   * The min-tolerance combinator: the incoming vertex replaces the in/out
   * one only when its tolerance is strictly smaller.
   */
  function VertexMin(inV: Vertex, inout: Vertex): (r: Vertex)
    ensures r == inV || r == inout
    ensures r.tolerance <= inV.tolerance && r.tolerance <= inout.tolerance
    ensures inV.tolerance == inout.tolerance ==> r == inout
  {
    if inV.tolerance < inout.tolerance then inV else inout
  }

  /**
   * The max-tolerance combinator: the incoming vertex replaces the in/out
   * one only when its tolerance is strictly larger.
   */
  function VertexMax(inV: Vertex, inout: Vertex): (r: Vertex)
    ensures r == inV || r == inout
    ensures r.tolerance >= inV.tolerance && r.tolerance >= inout.tolerance
    ensures inV.tolerance == inout.tolerance ==> r == inout
  {
    if inV.tolerance > inout.tolerance then inV else inout
  }

  /**
   * The user-defined MPI operator for the min-tolerance reduction: every one
   * of the first len entries of inout becomes the combination of in and inout
   * at that position.  The two buffers may be the same array.
   */
  method MpiVertexMin(inV: array<Vertex>, inout: array<Vertex>, len: int)
    requires 0 <= len <= inV.Length && len <= inout.Length
    modifies inout
    ensures forall i :: 0 <= i < len ==> inout[i] == VertexMin(old(inV[i]), old(inout[i]))
    ensures forall i :: len <= i < inout.Length ==> inout[i] == old(inout[i])
  {
    var i := 0;
    while i < len
      invariant 0 <= i <= len
      invariant forall k :: 0 <= k < i ==> inout[k] == VertexMin(old(inV[k]), old(inout[k]))
      invariant forall k :: i <= k < inout.Length ==> inout[k] == old(inout[k])
      invariant forall k :: i <= k < inV.Length ==> inV[k] == old(inV[k])
    {
      inout[i] := VertexMin(inV[i], inout[i]);
      i := i + 1;
    }
  }

  /** The user-defined MPI operator for the max-tolerance reduction. */
  method MpiVertexMax(inV: array<Vertex>, inout: array<Vertex>, len: int)
    requires 0 <= len <= inV.Length && len <= inout.Length
    modifies inout
    ensures forall i :: 0 <= i < len ==> inout[i] == VertexMax(old(inV[i]), old(inout[i]))
    ensures forall i :: len <= i < inout.Length ==> inout[i] == old(inout[i])
  {
    var i := 0;
    while i < len
      invariant 0 <= i <= len
      invariant forall k :: 0 <= k < i ==> inout[k] == VertexMax(old(inV[k]), old(inout[k]))
      invariant forall k :: i <= k < inout.Length ==> inout[k] == old(inout[k])
      invariant forall k :: i <= k < inV.Length ==> inV[k] == old(inV[k])
    {
      inout[i] := VertexMax(inV[i], inout[i]);
      i := i + 1;
    }
  }

  /**
   * The reduction of the contributions vs (one per process, in arrival order)
   * with VertexMin: a contribution of least tolerance.
   */
  function ReduceMin(vs: seq<Vertex>): (r: Vertex)
    requires |vs| > 0
    ensures r in vs
    ensures forall v :: v in vs ==> r.tolerance <= v.tolerance
  {
    if |vs| == 1 then vs[0]
    else
      var front := vs[..|vs| - 1];
      assert vs == front + [vs[|vs| - 1]];
      VertexMin(vs[|vs| - 1], ReduceMin(front))
  }

  /** The reduction of the contributions vs with VertexMax. */
  function ReduceMax(vs: seq<Vertex>): (r: Vertex)
    requires |vs| > 0
    ensures r in vs
    ensures forall v :: v in vs ==> r.tolerance >= v.tolerance
  {
    if |vs| == 1 then vs[0]
    else
      var front := vs[..|vs| - 1];
      assert vs == front + [vs[|vs| - 1]];
      VertexMax(vs[|vs| - 1], ReduceMax(front))
  }

  /**
   * The reduced tolerance depends only on which records contribute: not on
   * their order, nor on how many times each arrives.
   */
  lemma ReduceOrderFree(vs: seq<Vertex>, ws: seq<Vertex>)
    requires |vs| > 0 && |ws| > 0
    requires forall v :: v in vs <==> v in ws
    ensures ReduceMin(vs).tolerance == ReduceMin(ws).tolerance
    ensures ReduceMax(vs).tolerance == ReduceMax(ws).tolerance
  {
    var a, b := ReduceMin(vs), ReduceMin(ws);
    assert a in ws && b in vs;
    var c, d := ReduceMax(vs), ReduceMax(ws);
    assert c in ws && d in vs;
  }

  /** The copies among vs of the vertex with global number g, in order. */
  function Copies(g: nat, vs: seq<Vertex>): (r: seq<Vertex>)
    ensures forall v :: v in r <==> v in vs && v.gnum == g
  {
    if vs == [] then []
    else
      var front, last := vs[..|vs| - 1], vs[|vs| - 1];
      assert vs == front + [last];
      Copies(g, front) + (if last.gnum == g then [last] else [])
  }

  /** v with the least tolerance among all copies of its global number. */
  function SyncedVertex(v: Vertex, copies: seq<Vertex>): (r: Vertex)
    requires v in copies
  {
    assert v in Copies(v.gnum, copies);
    v.(tolerance := ReduceMin(Copies(v.gnum, copies)).tolerance)
  }

  /**
   * The local vertices vs after synchronisation with the copies remote held
   * by the other processes: every vertex takes the least tolerance of all
   * copies of its global number, local and remote.
   */
  function Synced(vs: seq<Vertex>, remote: seq<Vertex>): (r: seq<Vertex>)
    ensures |r| == |vs|
  {
    seq(|vs|, i requires 0 <= i < |vs| => assert vs[i] in vs + remote; SyncedVertex(vs[i], vs + remote))
  }

  /**
   * After synchronisation, each vertex keeps its global number and its
   * coordinates, and carries a tolerance that some copy of its global number
   * has and that no copy undercuts.
   */
  lemma SyncedMinimal(vs: seq<Vertex>, remote: seq<Vertex>, i: int)
    requires 0 <= i < |vs|
    ensures Synced(vs, remote)[i].gnum == vs[i].gnum
    ensures Synced(vs, remote)[i].coord == vs[i].coord
    ensures Synced(vs, remote)[i].tolerance <= vs[i].tolerance
    ensures forall w :: w in vs + remote && w.gnum == vs[i].gnum ==>
              Synced(vs, remote)[i].tolerance <= w.tolerance
    ensures exists w :: w in vs + remote && w.gnum == vs[i].gnum &&
              Synced(vs, remote)[i].tolerance == w.tolerance
  {
    var all := vs + remote;
    assert vs[i] in all;
    var m := ReduceMin(Copies(vs[i].gnum, all));
    assert Synced(vs, remote)[i] == vs[i].(tolerance := m.tolerance);
    assert m in all && m.gnum == vs[i].gnum;
  }

  /** Two local vertices with the same global number end with the same tolerance. */
  lemma SyncedAgree(vs: seq<Vertex>, remote: seq<Vertex>, i: int, j: int)
    requires 0 <= i < |vs| && 0 <= j < |vs| && vs[i].gnum == vs[j].gnum
    ensures Synced(vs, remote)[i].tolerance == Synced(vs, remote)[j].tolerance
  {
    SyncedMinimal(vs, remote, i);
    SyncedMinimal(vs, remote, j);
  }

  /**
   * The synchronised tolerances do not depend on the order in which the
   * remote copies arrive, nor on how often each arrives.
   */
  lemma SyncedOrderFree(vs: seq<Vertex>, r1: seq<Vertex>, r2: seq<Vertex>)
    requires forall w :: w in r1 <==> w in r2
    ensures Synced(vs, r1) == Synced(vs, r2)
  {
    forall i | 0 <= i < |vs| ensures Synced(vs, r1)[i] == Synced(vs, r2)[i] {
      var a1, a2 := vs + r1, vs + r2;
      assert vs[i] in a1 && vs[i] in a2;
      var c1, c2 := Copies(vs[i].gnum, a1), Copies(vs[i].gnum, a2);
      assert vs[i] in c1 && vs[i] in c2;
      ReduceOrderFree(c1, c2);
    }
  }

  /** Synchronising again against the same remote copies changes nothing. */
  lemma SyncedIdempotent(vs: seq<Vertex>, remote: seq<Vertex>)
    ensures Synced(Synced(vs, remote), remote) == Synced(vs, remote)
  {
    var s := Synced(vs, remote);
    forall i | 0 <= i < |vs| ensures Synced(s, remote)[i] == s[i] {
      SyncedIdempotentAt(vs, remote, i);
    }
  }

  /** Entry i of a second synchronisation is entry i of the first. */
  lemma SyncedIdempotentAt(vs: seq<Vertex>, remote: seq<Vertex>, i: int)
    requires 0 <= i < |vs|
    ensures Synced(Synced(vs, remote), remote)[i] == Synced(vs, remote)[i]
  {
    var s := Synced(vs, remote);
    SyncedMinimal(vs, remote, i);
    SyncedMinimal(s, remote, i);
    SyncedFloor(vs, remote, i);
    SyncedAttained(vs, remote, i);
  }

  /** No copy after a first synchronisation undercuts the synchronised tolerance of vs[i]. */
  lemma SyncedFloor(vs: seq<Vertex>, remote: seq<Vertex>, i: int)
    requires 0 <= i < |vs|
    ensures forall w :: w in Synced(vs, remote) + remote && w.gnum == vs[i].gnum ==>
              Synced(vs, remote)[i].tolerance <= w.tolerance
  {
    var s := Synced(vs, remote);
    SyncedMinimal(vs, remote, i);
    forall w | w in s + remote && w.gnum == vs[i].gnum ensures s[i].tolerance <= w.tolerance {
      if w in remote {
        assert w in vs + remote;
      } else {
        var j :| 0 <= j < |s| && s[j] == w;
        SyncedMinimal(vs, remote, j);
        SyncedAgree(vs, remote, i, j);
      }
    }
  }

  /** The synchronised tolerance of vs[i] is carried by a copy after the first synchronisation. */
  lemma SyncedAttained(vs: seq<Vertex>, remote: seq<Vertex>, i: int)
    requires 0 <= i < |vs|
    ensures exists w :: w in Synced(vs, remote) + remote && w.gnum == vs[i].gnum &&
              w.tolerance == Synced(vs, remote)[i].tolerance
  {
    var s := Synced(vs, remote);
    SyncedMinimal(vs, remote, i);
    var w :| w in vs + remote && w.gnum == vs[i].gnum && s[i].tolerance == w.tolerance;
    if w in remote {
      assert w in s + remote;
    } else {
      var j :| 0 <= j < |vs| && vs[j] == w;
      SyncedAgree(vs, remote, i, j);
      SyncedMinimal(vs, remote, j);
      assert s[j] in s + remote;
    }
  }
}
