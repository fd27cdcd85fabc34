/**
 * The edge structure of the join mesh (cs_join_edges_t): the list of edges,
 * each defined by a couple of local vertex ids, and an index on first
 * vertices that lists, for every vertex V1, its partners V1a, V1b, ... and
 * the number of the edge (V1, V1a), (V1, V1b), ...
 *
 * Vertex ids are 0-based; edge numbers are 1-based so that their sign can
 * carry the orientation of a couple.
 */
module JoinEdges {
  import opened Csr
  import opened Ordering
  import opened JoinFaces

  datatype Edges = Edges(
    nEdges: int,
    nGEdges: nat,
    def: seq<(int, int)>,
    gnum: seq<nat>,
    nVertices: int,
    vtxIdx: seq<int>,
    adjVtxLst: seq<int>,
    edgeLst: seq<int>)

  /** The entries of the index slice of vertex v name edges (v, partner). */
  ghost predicate SliceSound(e: Edges, v: int)
    requires 0 <= v < |e.vtxIdx| - 1 && IsIndex(e.vtxIdx, |e.adjVtxLst|)
    requires |e.edgeLst| == |e.adjVtxLst|
  {
    forall k :: e.vtxIdx[v] <= k < e.vtxIdx[v + 1] ==>
      1 <= e.edgeLst[k] <= |e.def| && e.def[e.edgeLst[k] - 1] == (v, e.adjVtxLst[k])
  }

  /** Edge i is listed in the index slice of its first vertex. */
  ghost predicate Listed(e: Edges, i: int)
    requires 0 <= i < |e.def|
    requires 0 <= e.def[i].0 < |e.vtxIdx| - 1 && IsIndex(e.vtxIdx, |e.adjVtxLst|)
    requires |e.edgeLst| == |e.adjVtxLst|
  {
    var a := e.def[i].0;
    exists k :: e.vtxIdx[a] <= k < e.vtxIdx[a + 1] && e.adjVtxLst[k] == e.def[i].1 && e.edgeLst[k] == i + 1
  }

  /**
   * Well-formedness of an edge structure: n_edges definitions with their
   * global numbers, each a couple of distinct vertices below n_vertices, no
   * edge defined twice in either orientation, and an index on first vertices
   * that lists exactly the defined couples with their edge numbers.
   */
  ghost predicate EdgesValid(e: Edges)
  {
    && e.nEdges == |e.def| == |e.gnum|
    && e.nGEdges == e.nEdges
    && (forall i :: 0 <= i < |e.gnum| ==> e.gnum[i] == i + 1)
    && (forall i :: 0 <= i < |e.def| ==>
          0 <= e.def[i].0 < e.nVertices && 0 <= e.def[i].1 < e.nVertices && e.def[i].0 != e.def[i].1)
    && (forall i, j :: 0 <= i < j < |e.def| ==> e.def[i] != e.def[j])
    && (forall i, j :: 0 <= i < |e.def| && 0 <= j < |e.def| ==> e.def[i] != (e.def[j].1, e.def[j].0))
    && |e.vtxIdx| == e.nVertices + 1
    && IsIndex(e.vtxIdx, |e.adjVtxLst|)
    && |e.edgeLst| == |e.adjVtxLst|
    && (forall v :: 0 <= v < e.nVertices ==> SliceSound(e, v))
    && (forall i :: 0 <= i < |e.def| ==> Listed(e, i))
  }

  /**
   * The signed edge number of the couple (v1, v2): the number of the edge,
   * positive when its definition has the order (v1, v2), negative when it is
   * defined as (v2, v1).
   */
  function EdgeNumber(e: Edges, v1: int, v2: int): (r: int)
    requires EdgesValid(e)
    requires (v1, v2) in e.def || (v2, v1) in e.def
    ensures r != 0 && -e.nEdges <= r <= e.nEdges
    ensures r > 0 ==> e.def[r - 1] == (v1, v2)
    ensures r < 0 ==> e.def[-r - 1] == (v2, v1)
  {
    if (v1, v2) in e.def then IndexOf(e.def, (v1, v2)) + 1 else -(IndexOf(e.def, (v2, v1)) + 1)
  }

  /** The sign convention determines the edge number: no other number satisfies it. */
  lemma EdgeNumberUnique(e: Edges, v1: int, v2: int, r: int)
    requires EdgesValid(e)
    requires r != 0 && -e.nEdges <= r <= e.nEdges
    requires r > 0 ==> e.def[r - 1] == (v1, v2)
    requires r < 0 ==> e.def[-r - 1] == (v2, v1)
    ensures (v1, v2) in e.def || (v2, v1) in e.def
    ensures r == EdgeNumber(e, v1, v2)
  {
    if r > 0 {
      assert e.def[r - 1] in e.def;
    } else {
      assert e.def[-r - 1] in e.def;
    }
  }

  /** The index slice of vertex v lies within the adjacency list. */
  lemma SliceBounds(e: Edges, v: int)
    requires EdgesValid(e) && 0 <= v < e.nVertices
    ensures 0 <= e.vtxIdx[v] <= e.vtxIdx[v + 1] <= |e.adjVtxLst| == |e.edgeLst|
  {
    assert e.vtxIdx[0] <= e.vtxIdx[v] <= e.vtxIdx[v + 1] <= e.vtxIdx[|e.vtxIdx| - 1];
  }

  /** An entry of the index slice of v names the edge (v, partner). */
  lemma SliceEntry(e: Edges, v: int, k: int)
    requires EdgesValid(e) && 0 <= v < e.nVertices
    requires e.vtxIdx[v] <= k < e.vtxIdx[v + 1]
    ensures 0 <= k < |e.adjVtxLst| == |e.edgeLst|
    ensures 1 <= e.edgeLst[k] <= e.nEdges && e.def[e.edgeLst[k] - 1] == (v, e.adjVtxLst[k])
  {
    SliceBounds(e, v);
    assert SliceSound(e, v);
  }

  /** A couple whose second vertex is absent from the slice of its first is no edge. */
  lemma AbsentNotEdge(e: Edges, v1: int, v2: int)
    requires EdgesValid(e) && 0 <= v1 < e.nVertices
    requires forall k :: e.vtxIdx[v1] <= k < e.vtxIdx[v1 + 1] ==> e.adjVtxLst[k] != v2
    ensures (v1, v2) !in e.def
  {
    forall i | 0 <= i < |e.def| ensures e.def[i] != (v1, v2) {
      assert Listed(e, i);
    }
  }

  /**
   * Edge lookup: scans the index slice of v1 for v2, then that of v2 for v1.
   * The couple must be an edge; the result is the signed edge number.
   */
  method GetEdge(v1: int, v2: int, e: Edges) returns (edgeNum: int)
    requires EdgesValid(e)
    requires (v1, v2) in e.def || (v2, v1) in e.def
    ensures edgeNum != 0 && -e.nEdges <= edgeNum <= e.nEdges
    ensures edgeNum > 0 ==> e.def[edgeNum - 1] == (v1, v2)
    ensures edgeNum < 0 ==> e.def[-edgeNum - 1] == (v2, v1)
    ensures edgeNum == EdgeNumber(e, v1, v2)
  {
    assert (v1, v2) in e.def ==> e.def[IndexOf(e.def, (v1, v2))] == (v1, v2);
    assert (v2, v1) in e.def ==> e.def[IndexOf(e.def, (v2, v1))] == (v2, v1);
    assert 0 <= v1 < e.nVertices && 0 <= v2 < e.nVertices;
    var j := ScanSlice(e, v1, v2);
    if j < e.vtxIdx[v1 + 1] {
      SliceEntry(e, v1, j);
      edgeNum := e.edgeLst[j];
    } else {
      AbsentNotEdge(e, v1, v2);
      var p := IndexOf(e.def, (v2, v1));
      assert Listed(e, p);
      j := ScanSlice(e, v2, v1);
      SliceEntry(e, v2, j);
      edgeNum := -e.edgeLst[j];
    }
    EdgeNumberUnique(e, v1, v2, edgeNum);
  }

  /**
   * The first position of the index slice of v whose partner is x, or the
   * end of the slice when x is not there.
   */
  method ScanSlice(e: Edges, v: int, x: int) returns (j: int)
    requires EdgesValid(e) && 0 <= v < e.nVertices
    ensures e.vtxIdx[v] <= j <= e.vtxIdx[v + 1] <= |e.adjVtxLst|
    ensures j < e.vtxIdx[v + 1] ==> e.adjVtxLst[j] == x
    ensures forall k :: e.vtxIdx[v] <= k < j ==> e.adjVtxLst[k] != x
  {
    SliceBounds(e, v);
    var end := e.vtxIdx[v + 1];
    j := e.vtxIdx[v];
    while j < end && e.adjVtxLst[j] != x
      invariant e.vtxIdx[v] <= j <= end
      invariant forall k :: e.vtxIdx[v] <= k < j ==> e.adjVtxLst[k] != x
    {
      j := j + 1;
    }
  }

  // ----- define_edges -----

  /** The couples of consecutive vertices of a face, closing it. */
  function FacePairs(f: seq<int>): (r: seq<(int, int)>)
    ensures |r| == |f|
    ensures forall j :: 0 <= j < |f| ==> r[j] == (f[j], Next(f, j))
  {
    seq(|f|, j requires 0 <= j < |f| => (f[j], Next(f, j)))
  }

  /** The couples of consecutive vertices of all faces. */
  function AllPairs(faces: seq<seq<int>>): seq<(int, int)>
  {
    Flatten(seq(|faces|, i requires 0 <= i < |faces| => FacePairs(faces[i])))
  }

  /**
   * The position of vertex v in the global numbering of the vertices whose
   * global numbers are g: by global number, and by id among the vertices
   * that share one.
   */
  function Rank(g: seq<nat>, v: int): nat
  {
    if 0 <= v < |g| then g[v] * |g| + v else 0
  }

  /**
   * Vertex a comes before vertex b in the global numbering: a smaller
   * global number, or the same one and a smaller id.
   */
  predicate GnumBefore(g: seq<nat>, a: int, b: int)
    requires 0 <= a < |g| && 0 <= b < |g|
  {
    g[a] < g[b] || (g[a] == g[b] && a < b)
  }

  /** Multiplication by a positive n is strictly monotone, by steps of n. */
  lemma {:induction false} MulStep(a: int, c: int, n: int)
    requires 0 <= a < c && n > 0
    ensures a * n + n <= c * n
    decreases c - a
  {
    if c > a + 1 {
      MulStep(a, c - 1, n);
      assert c * n == (c - 1) * n + n;
    } else {
      assert c * n == a * n + n;
    }
  }

  /** The rank follows the global numbering and tells distinct vertices apart. */
  lemma RankOrder(g: seq<nat>, a: int, b: int)
    requires 0 <= a < |g| && 0 <= b < |g|
    ensures Rank(g, a) < Rank(g, b) <==> GnumBefore(g, a, b)
    ensures Rank(g, a) == Rank(g, b) <==> a == b
  {
    if g[a] < g[b] {
      MulStep(g[a], g[b], |g|);
    } else if g[b] < g[a] {
      MulStep(g[b], g[a], |g|);
    }
  }

  /** The largest global number of g, 0 when there is none. */
  function MaxGnum(g: seq<nat>): (m: nat)
    ensures forall i :: 0 <= i < |g| ==> g[i] <= m
  {
    if g == [] then 0
    else
      var m0 := MaxGnum(g[1..]);
      assert forall i :: 1 <= i < |g| ==> g[i] == g[1..][i - 1];
      if g[0] > m0 then g[0] else m0
  }

  /** Every rank is below (MaxGnum(g) + 1) * |g|. */
  lemma RanksBelow(g: seq<nat>)
    ensures forall v :: 0 <= v < |g| ==> Rank(g, v) < (MaxGnum(g) + 1) * |g|
  {
    forall v | 0 <= v < |g| ensures Rank(g, v) < (MaxGnum(g) + 1) * |g| {
      MulStep(g[v], MaxGnum(g) + 1, |g|);
    }
  }

  /** A bound above every rank. */
  function RankBound(g: seq<nat>): (b: nat)
    ensures forall v :: 0 <= v < |g| ==> Rank(g, v) < b
  {
    RanksBelow(g);
    (MaxGnum(g) + 1) * |g|
  }

  /** The couple (a, b) oriented from the vertex that comes first in the global numbering. */
  function Canon(g: seq<nat>, a: int, b: int): (p: (int, int))
    ensures p == (a, b) || p == (b, a)
    ensures 0 <= a < |g| && 0 <= b < |g| && a != b ==> GnumBefore(g, p.0, p.1)
  {
    if 0 <= a < |g| && 0 <= b < |g| then RankOrder(g, a, b); RankOrder(g, b, a);
      if Rank(g, a) <= Rank(g, b) then (a, b) else (b, a)
    else (a, b)
  }

  /** The oriented couples of ps whose two vertices differ. */
  function Candidates(g: seq<nat>, ps: seq<(int, int)>): (r: seq<(int, int)>)
    ensures forall q :: q in r ==> q.0 != q.1 && exists p :: p in ps && q == Canon(g, p.0, p.1)
    ensures forall p :: p in ps && p.0 != p.1 ==> Canon(g, p.0, p.1) in r
  {
    if ps == [] then []
    else
      var front, last := ps[..|ps| - 1], ps[|ps| - 1];
      assert ps == front + [last];
      Candidates(g, front) + (if last.0 != last.1 then [Canon(g, last.0, last.1)] else [])
  }

  /** Sort key of a couple: lexicographic on the ranks of its two vertices. */
  function EdgeKey(g: seq<nat>, p: (int, int)): nat
  {
    Rank(g, p.0) * RankBound(g) + Rank(g, p.1)
  }

  function KeyOf(g: seq<nat>): ((int, int)) -> nat
  {
    p => EdgeKey(g, p)
  }

  /**
   * On couples of vertices of g, the key orders couples by their first
   * vertex in the global numbering, then by their second, and tells
   * distinct couples apart.
   */
  lemma EdgeKeyOrder(g: seq<nat>, p: (int, int), q: (int, int))
    requires 0 <= p.0 < |g| && 0 <= p.1 < |g| && 0 <= q.0 < |g| && 0 <= q.1 < |g|
    ensures EdgeKey(g, p) < EdgeKey(g, q) <==>
              GnumBefore(g, p.0, q.0) || (p.0 == q.0 && GnumBefore(g, p.1, q.1))
    ensures EdgeKey(g, p) == EdgeKey(g, q) <==> p == q
  {
    var b := RankBound(g);
    RankOrder(g, p.0, q.0);
    RankOrder(g, p.1, q.1);
    if Rank(g, p.0) < Rank(g, q.0) {
      MulStep(Rank(g, p.0), Rank(g, q.0), b);
    } else if Rank(g, q.0) < Rank(g, p.0) {
      MulStep(Rank(g, q.0), Rank(g, p.0), b);
    }
  }

  /** Every entry of every face is a vertex id below n. */
  ghost predicate RefsBelow(faces: seq<seq<int>>, n: int)
  {
    forall i, j :: 0 <= i < |faces| && 0 <= j < |faces[i]| ==> 0 <= faces[i][j] < n
  }

  /**
   * The definitions of the edges of the faces over the vertices whose global
   * numbers are g: oriented, ordered in the global numbering, without
   * repetition.
   */
  function EdgeDefs(faces: seq<seq<int>>, g: seq<nat>): (def: seq<(int, int)>)
  {
    SortDedup(KeyOf(g), Candidates(g, AllPairs(faces)))
  }

  /** The (partner, edge number) entries of the index slice of vertex v. */
  function Bucket(def: seq<(int, int)>, v: int): (r: seq<(int, int)>)
    ensures forall q :: q in r ==> 1 <= q.1 <= |def| && def[q.1 - 1] == (v, q.0)
    ensures forall i :: 0 <= i < |def| && def[i].0 == v ==> (def[i].1, i + 1) in r
  {
    if def == [] then []
    else
      var front, last := def[..|def| - 1], def[|def| - 1];
      var r0 := Bucket(front, v);
      assert forall i :: 0 <= i < |front| ==> front[i] == def[i];
      r0 + (if last.0 == v then [(last.1, |def|)] else [])
  }

  /** The rows of the index on first vertices. */
  function Buckets(def: seq<(int, int)>, n: int): (rows: seq<seq<(int, int)>>)
    requires n >= 0
    ensures |rows| == n && forall v :: 0 <= v < n ==> rows[v] == Bucket(def, v)
  {
    seq(n, v requires 0 <= v < n => Bucket(def, v))
  }

  /** The edge structure of the edge definitions def over n vertices. */
  function BuildEdges(def: seq<(int, int)>, n: int): (e: Edges)
    requires n >= 0
    ensures e.nVertices == n && e.def == def
  {
    var rows := Buckets(def, n);
    var lst := Flatten(rows);
    Edges(|def|, |def|, def, seq(|def|, i requires 0 <= i < |def| => i + 1), n,
          Offsets(rows), seq(|lst|, k requires 0 <= k < |lst| => lst[k].0),
          seq(|lst|, k requires 0 <= k < |lst| => lst[k].1))
  }

  /**
   * Builds the edge structure of a face connectivity over the vertices whose
   * global numbers are g.
   */
  function DefineEdges(faces: seq<seq<int>>, g: seq<nat>): (e: Edges)
    ensures e.nVertices == |g| && e.def == EdgeDefs(faces, g)
  {
    BuildEdges(EdgeDefs(faces, g), |g|)
  }

  /**
   * Each defined edge joins two vertices of the mesh and is oriented from the
   * one that comes first in the global numbering.
   */
  lemma EdgeDefsInRange(faces: seq<seq<int>>, g: seq<nat>)
    requires RefsBelow(faces, |g|)
    ensures forall q :: q in EdgeDefs(faces, g) ==>
              0 <= q.0 < |g| && 0 <= q.1 < |g| && GnumBefore(g, q.0, q.1)
  {
    forall q | q in EdgeDefs(faces, g) ensures 0 <= q.0 < |g| && 0 <= q.1 < |g| && GnumBefore(g, q.0, q.1) {
      CandidatesInRange(faces, g, q);
    }
  }

  /** The edges of the faces carry no repetition and no loop. */
  lemma EdgeDefsDistinct(faces: seq<seq<int>>, g: seq<nat>)
    requires RefsBelow(faces, |g|)
    ensures forall i, j :: 0 <= i < j < |EdgeDefs(faces, g)| ==> EdgeDefs(faces, g)[i] != EdgeDefs(faces, g)[j]
    ensures forall i :: 0 <= i < |EdgeDefs(faces, g)| ==> EdgeDefs(faces, g)[i].0 != EdgeDefs(faces, g)[i].1
  {
    var def := EdgeDefs(faces, g);
    forall i, j | 0 <= i < j < |def| ensures def[i] != def[j] {
      assert KeyOf(g)(def[i]) < KeyOf(g)(def[j]);
    }
    forall i | 0 <= i < |def| ensures def[i].0 != def[i].1 {
      assert def[i] in def;
    }
  }

  /** The index on first vertices is the packing of the buckets. */
  lemma BuildEdgesIndex(def: seq<(int, int)>, n: int)
    requires n >= 0
    ensures var e := BuildEdges(def, n);
      && e.vtxIdx == Offsets(Buckets(def, n))
      && |e.adjVtxLst| == |e.edgeLst| == |Flatten(Buckets(def, n))|
      && |e.vtxIdx| == n + 1
      && IsIndex(e.vtxIdx, |e.adjVtxLst|)
      && (forall k :: 0 <= k < |e.adjVtxLst| ==>
            e.adjVtxLst[k] == Flatten(Buckets(def, n))[k].0 && e.edgeLst[k] == Flatten(Buckets(def, n))[k].1)
  {
    OffsetsIsIndex(Buckets(def, n));
  }

  /** Entry k of the flattened buckets, within the slice of v, is an entry of the bucket of v. */
  lemma BucketsEntry(def: seq<(int, int)>, n: int, v: int, k: int)
    requires 0 <= v < n
    requires Offsets(Buckets(def, n))[v] <= k < Offsets(Buckets(def, n))[v + 1]
    ensures 0 <= k < |Flatten(Buckets(def, n))|
    ensures Flatten(Buckets(def, n))[k] in Bucket(def, v)
  {
    RowMember(Buckets(def, n), v, k);
  }

  /** Each index slice names edges from its vertex. */
  lemma BuildEdgesSlice(def: seq<(int, int)>, n: int, v: int)
    requires 0 <= v < n
    ensures var e := BuildEdges(def, n);
      && |e.vtxIdx| == n + 1 && IsIndex(e.vtxIdx, |e.adjVtxLst|) && |e.edgeLst| == |e.adjVtxLst|
      && SliceSound(e, v)
  {
    var e := BuildEdges(def, n);
    var lst := Flatten(Buckets(def, n));
    BuildEdgesIndex(def, n);
    forall k | e.vtxIdx[v] <= k < e.vtxIdx[v + 1]
      ensures 1 <= e.edgeLst[k] <= |def| && def[e.edgeLst[k] - 1] == (v, e.adjVtxLst[k])
    {
      BucketsEntry(def, n, v, k);
    }
  }

  /** Each entry of the bucket of v sits in the slice of v of the flattened buckets. */
  lemma BucketsListed(def: seq<(int, int)>, n: int, v: int, q: (int, int))
    requires 0 <= v < n && q in Bucket(def, v)
    ensures exists k :: Offsets(Buckets(def, n))[v] <= k < Offsets(Buckets(def, n))[v + 1]
                     && 0 <= k < |Flatten(Buckets(def, n))| && Flatten(Buckets(def, n))[k] == q
  {
    var rows := Buckets(def, n);
    var m :| 0 <= m < |rows[v]| && rows[v][m] == q;
    RowSpan(rows, v);
    RowEntry(rows, v, m);
    assert Offsets(rows)[v] <= Offsets(rows)[v] + m < Offsets(rows)[v + 1];
  }

  /** Each edge is listed in the slice of its first vertex. */
  lemma BuildEdgesListed(def: seq<(int, int)>, n: int, i: int)
    requires n >= 0
    requires 0 <= i < |def| && 0 <= def[i].0 < n
    ensures var e := BuildEdges(def, n);
      && |e.vtxIdx| == n + 1 && IsIndex(e.vtxIdx, |e.adjVtxLst|) && |e.edgeLst| == |e.adjVtxLst|
      && Listed(e, i)
  {
    var e := BuildEdges(def, n);
    var lst := Flatten(Buckets(def, n));
    BuildEdgesIndex(def, n);
    var a := def[i].0;
    BucketsListed(def, n, a, (def[i].1, i + 1));
    var k :| e.vtxIdx[a] <= k < e.vtxIdx[a + 1] && 0 <= k < |lst| && lst[k] == (def[i].1, i + 1);
  }

  /**
   * Couples of distinct vertices below n, none repeated in either
   * orientation, give a valid edge structure.
   */
  lemma BuildEdgesValid(def: seq<(int, int)>, n: int)
    requires n >= 0
    requires forall i :: 0 <= i < |def| ==> 0 <= def[i].0 < n && 0 <= def[i].1 < n && def[i].0 != def[i].1
    requires forall i, j :: 0 <= i < j < |def| ==> def[i] != def[j]
    requires forall i, j :: 0 <= i < |def| && 0 <= j < |def| ==> def[i] != (def[j].1, def[j].0)
    ensures EdgesValid(BuildEdges(def, n))
  {
    var e := BuildEdges(def, n);
    BuildEdgesIndex(def, n);
    forall v | 0 <= v < n ensures SliceSound(e, v) {
      BuildEdgesSlice(def, n, v);
    }
    forall i | 0 <= i < |def| ensures Listed(e, i) {
      BuildEdgesListed(def, n, i);
    }
  }

  /** The edges built from a connectivity over the vertices of g form a valid edge structure. */
  lemma DefineEdgesValid(faces: seq<seq<int>>, g: seq<nat>)
    requires RefsBelow(faces, |g|)
    ensures EdgesValid(DefineEdges(faces, g))
  {
    var def := EdgeDefs(faces, g);
    EdgeDefsInRange(faces, g);
    EdgeDefsDistinct(faces, g);
    forall i | 0 <= i < |def| ensures 0 <= def[i].0 < |g| && 0 <= def[i].1 < |g| && GnumBefore(g, def[i].0, def[i].1) {
      assert def[i] in def;
    }
    forall i, j | 0 <= i < |def| && 0 <= j < |def| ensures def[i] != (def[j].1, def[j].0) {
      assert GnumBefore(g, def[i].0, def[i].1) && GnumBefore(g, def[j].0, def[j].1);
    }
    BuildEdgesValid(def, |g|);
  }

  /**
   * Every couple of distinct consecutive vertices of a face is an edge,
   * defined in one orientation or the other: the lookup of that couple is
   * always defined on the edges built from the faces.
   */
  lemma DefineEdgesCovers(faces: seq<seq<int>>, g: seq<nat>, i: int, j: int)
    requires RefsBelow(faces, |g|)
    requires 0 <= i < |faces| && 0 <= j < |faces[i]|
    requires faces[i][j] != Next(faces[i], j)
    ensures EdgesValid(DefineEdges(faces, g))
    ensures (faces[i][j], Next(faces[i], j)) in DefineEdges(faces, g).def
         || (Next(faces[i], j), faces[i][j]) in DefineEdges(faces, g).def
  {
    DefineEdgesValid(faces, g);
    PairInAllPairs(faces, i, j);
    CanonInEdgeDefs(faces, g, (faces[i][j], Next(faces[i], j)));
  }

  /** The couple of position j of face i is among the couples of all faces. */
  lemma PairInAllPairs(faces: seq<seq<int>>, i: int, j: int)
    requires 0 <= i < |faces| && 0 <= j < |faces[i]|
    ensures (faces[i][j], Next(faces[i], j)) in AllPairs(faces)
  {
    var rows := seq(|faces|, i requires 0 <= i < |faces| => FacePairs(faces[i]));
    assert (faces[i][j], Next(faces[i], j)) in rows[i];
    FlattenMember(rows, (faces[i][j], Next(faces[i], j)));
  }

  /** Every couple of all faces joins two consecutive vertices of some face. */
  lemma PairOrigin(faces: seq<seq<int>>, p: (int, int))
    requires p in AllPairs(faces)
    ensures exists i, j :: 0 <= i < |faces| && 0 <= j < |faces[i]| && p == (faces[i][j], Next(faces[i], j))
  {
    var rows := seq(|faces|, i requires 0 <= i < |faces| => FacePairs(faces[i]));
    FlattenMember(rows, p);
    var i :| 0 <= i < |rows| && p in rows[i];
    var j :| 0 <= j < |rows[i]| && rows[i][j] == p;
    assert p == (faces[i][j], Next(faces[i], j));
  }

  /** On faces over n vertices, every couple of all faces joins two vertices below n. */
  lemma PairInRange(faces: seq<seq<int>>, n: int, p: (int, int))
    requires RefsBelow(faces, n)
    requires p in AllPairs(faces)
    ensures 0 <= p.0 < n && 0 <= p.1 < n
  {
    PairOrigin(faces, p);
    var i, j :| 0 <= i < |faces| && 0 <= j < |faces[i]| && p == (faces[i][j], Next(faces[i], j));
    assert 0 <= faces[i][j] < n;
  }

  /**
   * A couple of distinct face vertices is defined as an edge, oriented from
   * the vertex that comes first in the global numbering.
   */
  lemma CanonInEdgeDefs(faces: seq<seq<int>>, g: seq<nat>, p: (int, int))
    requires RefsBelow(faces, |g|)
    requires p in AllPairs(faces) && p.0 != p.1
    ensures Canon(g, p.0, p.1) in EdgeDefs(faces, g)
  {
    var c := Canon(g, p.0, p.1);
    var cands := Candidates(g, AllPairs(faces));
    assert c in cands;
    assert HasKey(KeyOf(g), KeyOf(g)(c), cands);
    var y :| y in EdgeDefs(faces, g) && KeyOf(g)(y) == KeyOf(g)(c);
    EdgeDefsInRange(faces, g);
    CandidatesInRange(faces, g, c);
    EdgeKeyOrder(g, y, c);
  }

  /**
   * A candidate couple joins two vertices of the mesh, the one that comes
   * first in the global numbering first.
   */
  lemma CandidatesInRange(faces: seq<seq<int>>, g: seq<nat>, q: (int, int))
    requires RefsBelow(faces, |g|)
    requires q in Candidates(g, AllPairs(faces))
    ensures 0 <= q.0 < |g| && 0 <= q.1 < |g| && GnumBefore(g, q.0, q.1)
  {
    var p :| p in AllPairs(faces) && q == Canon(g, p.0, p.1);
    PairInRange(faces, |g|, p);
  }

  /** Every defined edge joins two consecutive vertices of some face. */
  lemma DefineEdgesSound(faces: seq<seq<int>>, g: seq<nat>, q: (int, int))
    requires q in DefineEdges(faces, g).def
    ensures exists i, j :: 0 <= i < |faces| && 0 <= j < |faces[i]| &&
              q == Canon(g, faces[i][j], Next(faces[i], j))
  {
    var p :| p in AllPairs(faces) && q == Canon(g, p.0, p.1);
    PairOrigin(faces, p);
    var i, j :| 0 <= i < |faces| && 0 <= j < |faces[i]| && p == (faces[i][j], Next(faces[i], j));
    assert q == Canon(g, faces[i][j], Next(faces[i], j));
  }

  /**
   * The edges are numbered in the order of their couples in the global
   * numbering: by first vertex, then by second vertex.
   */
  lemma DefineEdgesOrdered(faces: seq<seq<int>>, g: seq<nat>, i: int, j: int)
    requires RefsBelow(faces, |g|)
    requires 0 <= i < j < |DefineEdges(faces, g).def|
    ensures var d := DefineEdges(faces, g).def;
      && 0 <= d[i].0 < |g| && 0 <= d[i].1 < |g| && 0 <= d[j].0 < |g| && 0 <= d[j].1 < |g|
      && (GnumBefore(g, d[i].0, d[j].0) || (d[i].0 == d[j].0 && GnumBefore(g, d[i].1, d[j].1)))
  {
    var def := EdgeDefs(faces, g);
    EdgeDefsInRange(faces, g);
    assert def[i] in def && def[j] in def;
    assert KeyOf(g)(def[i]) < KeyOf(g)(def[j]);
    EdgeKeyOrder(g, def[i], def[j]);
  }

  /**
   * When no two vertices share a global number, as after vertex_clean, each
   * edge goes from its smaller global number to its larger one and the edges
   * are numbered in the lexicographic order of their couples of global
   * numbers.
   */
  lemma DefineEdgesGnumOrder(faces: seq<seq<int>>, g: seq<nat>, i: int, j: int)
    requires RefsBelow(faces, |g|)
    requires forall u, v :: 0 <= u < v < |g| ==> g[u] != g[v]
    requires 0 <= i < j < |DefineEdges(faces, g).def|
    ensures var d := DefineEdges(faces, g).def;
      && 0 <= d[i].0 < |g| && 0 <= d[i].1 < |g| && 0 <= d[j].0 < |g| && 0 <= d[j].1 < |g|
      && g[d[i].0] < g[d[i].1]
      && (g[d[i].0] < g[d[j].0] || (g[d[i].0] == g[d[j].0] && g[d[i].1] < g[d[j].1]))
  {
    var d := EdgeDefs(faces, g);
    DefineEdgesOrdered(faces, g, i, j);
    EdgeDefsInRange(faces, g);
    assert d[i] in d && d[j] in d;
    assert GnumBefore(g, d[i].0, d[i].1);
    assert g[d[i].0] == g[d[j].0] ==> d[i].0 == d[j].0;
    assert g[d[i].1] == g[d[j].1] ==> d[i].1 == d[j].1;
  }

  /**
   * One triangle [0, 1, 2] over vertices of global numbers 20, 10 and 30:
   * its edges are (1, 0), (1, 2), (0, 2) in this order, so the couple
   * (0, 1) is edge 1 traversed backwards.
   */
  lemma DefineEdgesScenario(faces: seq<seq<int>>, g: seq<nat>)
    requires faces == [[0, 1, 2]] && g == [20, 10, 30]
    ensures DefineEdges(faces, g).def == [(1, 0), (1, 2), (0, 2)]
    ensures EdgesValid(DefineEdges(faces, g))
    ensures EdgeNumber(DefineEdges(faces, g), 0, 1) == -1
  {
    ScenarioDefs(g);
    ScenarioRefs(faces, g);
    DefineEdgesValid(faces, g);
    var e := DefineEdges(faces, g);
    assert (0, 1) !in e.def;
    assert IndexOf(e.def, (1, 0)) == 0;
  }

  /** The triangle of DefineEdgesScenario refers to its three vertices only. */
  lemma ScenarioRefs(faces: seq<seq<int>>, g: seq<nat>)
    requires faces == [[0, 1, 2]] && g == [20, 10, 30]
    ensures RefsBelow(faces, |g|)
  {
    forall i, j | 0 <= i < |faces| && 0 <= j < |faces[i]| ensures 0 <= faces[i][j] < |g| {
      assert faces[i] == [0, 1, 2];
    }
  }

  /** The edge definitions of the triangle of DefineEdgesScenario. */
  lemma ScenarioDefs(g: seq<nat>)
    requires g == [20, 10, 30]
    ensures EdgeDefs([[0, 1, 2]], g) == [(1, 0), (1, 2), (0, 2)]
  {
    var cands: seq<(int, int)> := [(1, 0), (1, 2), (0, 2)];
    ScenarioPairs();
    ScenarioCandidates(g);
    ScenarioSorted(g, cands);
    SortDedupSorted(KeyOf(g), cands);
  }

  /** The three edges of the triangle of DefineEdgesScenario are in key order. */
  lemma ScenarioSorted(g: seq<nat>, cands: seq<(int, int)>)
    requires g == [20, 10, 30] && cands == [(1, 0), (1, 2), (0, 2)]
    ensures StrictlySortedBy(KeyOf(g), cands)
  {
    ScenarioKeys(g);
    assert KeyOf(g)(cands[0]) < KeyOf(g)(cands[1]) < KeyOf(g)(cands[2]);
  }

  /** The consecutive couples of the triangle [0, 1, 2]. */
  lemma ScenarioPairs()
    ensures AllPairs([[0, 1, 2]]) == [(0, 1), (1, 2), (2, 0)]
  {
    var faces: seq<seq<int>> := [[0, 1, 2]];
    var rows := seq(|faces|, i requires 0 <= i < |faces| => FacePairs(faces[i]));
    var fp := FacePairs([0, 1, 2]);
    assert Next([0, 1, 2], 0) == 1 && Next([0, 1, 2], 1) == 2 && Next([0, 1, 2], 2) == 0;
    assert fp[0] == (0, 1) && fp[1] == (1, 2) && fp[2] == (2, 0);
    assert fp == [(0, 1), (1, 2), (2, 0)];
    assert rows == [fp];
    assert rows[..0] == [];
    assert AllPairs(faces) == Flatten(rows) == Flatten(rows[..0]) + fp;
  }

  /** The sort keys of the three edges of the triangle of DefineEdgesScenario. */
  lemma ScenarioKeys(g: seq<nat>)
    requires g == [20, 10, 30]
    ensures KeyOf(g)((1, 0)) == 2943 && KeyOf(g)((1, 2)) == 2975 && KeyOf(g)((0, 2)) == 5672
  {
    assert g[1..][1..] == [30] && g[1..][1..][1..] == [];
    assert MaxGnum(g[1..][1..]) == 30;
    assert MaxGnum(g[1..]) == 30;
    assert RankBound(g) == 93;
    assert Rank(g, 0) == 60 && Rank(g, 1) == 31 && Rank(g, 2) == 92;
  }

  /** The candidate couples of the triangle of DefineEdgesScenario. */
  lemma ScenarioCandidates(g: seq<nat>)
    requires g == [20, 10, 30]
    ensures Candidates(g, [(0, 1), (1, 2), (2, 0)]) == [(1, 0), (1, 2), (0, 2)]
  {
    var ps: seq<(int, int)> := [(0, 1), (1, 2), (2, 0)];
    var p2, p1: seq<(int, int)> := [(0, 1), (1, 2)], [(0, 1)];
    assert ps[..2] == p2 && p2[..1] == p1 && p1[..0] == [];
    assert Canon(g, 0, 1) == (1, 0) && Canon(g, 1, 2) == (1, 2) && Canon(g, 2, 0) == (0, 2);
    assert Candidates(g, p1) == [(1, 0)];
    assert Candidates(g, p2) == [(1, 0), (1, 2)];
  }
}
