/**
 * Vertex renumbering of the join mesh: the restriction of a vertex array to
 * the vertices that faces use (extraction of a subset of faces), and the
 * removal of vertices that appear several times with the same global number
 * or that no face uses (vertex_clean).  Both act on the flat face -> vertex
 * list; the face index is left as it is.
 */
module JoinRenumber {
  import opened Ordering
  import opened JoinVertex

  /** Every entry of lst is a vertex id below n. */
  ghost predicate Below(lst: seq<int>, n: int)
  {
    forall k :: 0 <= k < |lst| ==> 0 <= lst[k] < n
  }

  /** The ids 0 .. n-1. */
  function Range(n: nat): (r: seq<int>)
    ensures |r| == n && forall i :: 0 <= i < n ==> r[i] == i
  {
    seq(n, i => i)
  }

  /** The vertex ids below n that occur in lst, in increasing order. */
  function Used(lst: seq<int>, n: int): (u: seq<int>)
    ensures forall i, j :: 0 <= i < j < |u| ==> u[i] < u[j]
    ensures forall v :: v in u <==> 0 <= v < n && v in lst
    decreases n
  {
    if n <= 0 then []
    else
      var u0 := Used(lst, n - 1);
      assert forall i :: 0 <= i < |u0| ==> u0[i] in u0;
      u0 + (if n - 1 in lst then [n - 1] else [])
  }

  /** When every id below n occurs, all of them are used. */
  lemma {:induction false} UsedAll(lst: seq<int>, n: nat)
    requires forall v :: 0 <= v < n ==> v in lst
    ensures Used(lst, n) == Range(n)
  {
    if n > 0 {
      UsedAll(lst, n - 1);
      assert Range(n - 1) + [n - 1] == Range(n);
    }
  }

  /** The result of a renumbering: a new flat vertex list and a new vertex array. */
  datatype Renumbered = Renumbered(lst: seq<int>, vertices: seq<Vertex>)

  // ----- restriction to the used vertices -----

  /**
   * Keeps the vertices that lst uses, in their order, and renumbers lst
   * accordingly.
   */
  function Restrict(lst: seq<int>, vs: seq<Vertex>): (r: Renumbered)
    requires Below(lst, |vs|)
    ensures |r.lst| == |lst|
  {
    var used := Used(lst, |vs|);
    assert forall k :: 0 <= k < |lst| ==> lst[k] in used;
    assert forall k :: 0 <= k < |used| ==> used[k] in used;
    Renumbered(seq(|lst|, k requires 0 <= k < |lst| => IndexOf(used, lst[k])),
               seq(|used|, k requires 0 <= k < |used| => vs[used[k]]))
  }

  /**
   * The restriction describes the same vertices: every entry of the new list
   * designates the same vertex record as before, every kept vertex is used,
   * and kept vertex v is the v-th used vertex, so that, Used being
   * increasing, the kept vertices keep their relative order.
   */
  lemma RestrictFacts(lst: seq<int>, vs: seq<Vertex>)
    requires Below(lst, |vs|)
    ensures var r := Restrict(lst, vs);
      && Below(r.lst, |r.vertices|)
      && (forall k :: 0 <= k < |lst| ==> r.vertices[r.lst[k]] == vs[lst[k]])
      && (forall v :: 0 <= v < |r.vertices| ==> v in r.lst)
      && |r.vertices| <= |vs|
      && |r.vertices| == |Used(lst, |vs|)|
      && (forall v :: 0 <= v < |r.vertices| ==> 0 <= Used(lst, |vs|)[v] < |vs|)
      && (forall v :: 0 <= v < |r.vertices| ==> r.vertices[v] == vs[Used(lst, |vs|)[v]])
  {
    var r := Restrict(lst, vs);
    var used := Used(lst, |vs|);
    forall v | 0 <= v < |r.vertices| ensures v in r.lst {
      assert used[v] in used;
      var p :| 0 <= p < |lst| && lst[p] == used[v];
      IndexOfAt(used, v);
      assert r.lst[p] == v;
    }
    forall v | 0 <= v < |used| ensures 0 <= used[v] < |vs| {
      assert used[v] in used;
    }
    UsedBounded(lst, |vs|);
  }

  /** At most n ids below n are used. */
  lemma {:induction false} UsedBounded(lst: seq<int>, n: int)
    ensures |Used(lst, n)| <= if n < 0 then 0 else n
    decreases n
  {
    if n > 0 { UsedBounded(lst, n - 1); }
  }

  // ----- vertex_clean -----

  /** The global number of the vertex with id i of vs. */
  function GnumAt(vs: seq<Vertex>): int -> nat
  {
    i => if 0 <= i < |vs| then vs[i].gnum else 0
  }

  /**
   * The vertices kept by vertex_clean: for each global number of a used
   * vertex, the first used vertex carrying it, in increasing global number.
   */
  function Kept(lst: seq<int>, vs: seq<Vertex>): (kept: seq<int>)
    ensures forall k :: 0 <= k < |kept| ==> 0 <= kept[k] < |vs| && kept[k] in lst
  {
    var used := Used(lst, |vs|);
    var kept := SortDedup(GnumAt(vs), used);
    assert forall k :: 0 <= k < |kept| ==> kept[k] in kept;
    kept
  }

  /** An id used by lst has its global number among the kept vertices. */
  lemma KeptHasKey(lst: seq<int>, vs: seq<Vertex>, v: int)
    requires 0 <= v < |vs| && v in lst
    ensures HasKey(GnumAt(vs), vs[v].gnum, Kept(lst, vs))
  {
    var used := Used(lst, |vs|);
    assert v in used && GnumAt(vs)(v) == vs[v].gnum;
    assert HasKey(GnumAt(vs), vs[v].gnum, used);
  }

  /** The new id of vertex v: the position of its global number among the kept vertices. */
  function NewId(lst: seq<int>, vs: seq<Vertex>, v: int): (i: nat)
    requires 0 <= v < |vs| && v in lst
    ensures i < |Kept(lst, vs)| && vs[Kept(lst, vs)[i]].gnum == vs[v].gnum
  {
    KeptHasKey(lst, vs, v);
    FirstWithKey(GnumAt(vs), vs[v].gnum, Kept(lst, vs))
  }

  /**
   * vertex_clean on the flat list lst over the vertex array vs: removes the
   * vertices whose global number an earlier used vertex already carries and
   * the vertices that no face uses, and renumbers the list.
   */
  function VertexClean(lst: seq<int>, vs: seq<Vertex>): (r: Renumbered)
    requires Below(lst, |vs|)
    ensures |r.lst| == |lst|
  {
    var kept := Kept(lst, vs);
    Renumbered(seq(|lst|, k requires 0 <= k < |lst| => NewId(lst, vs, lst[k])),
               seq(|kept|, k requires 0 <= k < |kept| => vs[kept[k]]))
  }

  /**
   * After vertex_clean, no two vertices share a global number (they are in
   * increasing global number), every vertex is used, every entry of the
   * list still designates a vertex of the same global number, and every
   * kept vertex is the first used vertex of its global number.
   */
  lemma VertexCleanFacts(lst: seq<int>, vs: seq<Vertex>)
    requires Below(lst, |vs|)
    ensures var r := VertexClean(lst, vs);
      && Below(r.lst, |r.vertices|)
      && (forall i, j :: 0 <= i < j < |r.vertices| ==> r.vertices[i].gnum < r.vertices[j].gnum)
      && (forall v :: 0 <= v < |r.vertices| ==> v in r.lst)
      && (forall k :: 0 <= k < |lst| ==> r.vertices[r.lst[k]].gnum == vs[lst[k]].gnum)
      && (forall v :: 0 <= v < |r.vertices| ==> r.vertices[v] in vs)
  {
    var r := VertexClean(lst, vs);
    var kept := Kept(lst, vs);
    forall v | 0 <= v < |r.vertices| ensures r.vertices[v] in vs {
      assert r.vertices[v] == vs[kept[v]];
    }
    VertexCleanIncreasing(lst, vs);
    VertexCleanAllUsed(lst, vs);
  }

  /** The vertices kept by vertex_clean are in strictly increasing global number. */
  lemma VertexCleanIncreasing(lst: seq<int>, vs: seq<Vertex>)
    requires Below(lst, |vs|)
    ensures var r := VertexClean(lst, vs);
      forall i, j :: 0 <= i < j < |r.vertices| ==> r.vertices[i].gnum < r.vertices[j].gnum
  {
    var r := VertexClean(lst, vs);
    var kept := Kept(lst, vs);
    var key := GnumAt(vs);
    forall i, j | 0 <= i < j < |r.vertices| ensures r.vertices[i].gnum < r.vertices[j].gnum {
      assert key(kept[i]) < key(kept[j]);
    }
  }

  /** Every vertex kept by vertex_clean is used by the renumbered list. */
  lemma VertexCleanAllUsed(lst: seq<int>, vs: seq<Vertex>)
    requires Below(lst, |vs|)
    ensures var r := VertexClean(lst, vs); forall v :: 0 <= v < |r.vertices| ==> v in r.lst
  {
    var r := VertexClean(lst, vs);
    var kept := Kept(lst, vs);
    var key := GnumAt(vs);
    forall v | 0 <= v < |r.vertices| ensures v in r.lst {
      var p :| 0 <= p < |lst| && lst[p] == kept[v];
      SortedKeyPosition(key, kept, v);
      assert r.lst[p] == v;
    }
  }

  /** The vertex kept for a global number is the first used vertex that carries it. */
  lemma VertexCleanKeepsFirst(lst: seq<int>, vs: seq<Vertex>, i: int)
    requires Below(lst, |vs|)
    requires 0 <= i < |Kept(lst, vs)|
    ensures var used := Used(lst, |vs|);
      HasKey(GnumAt(vs), GnumAt(vs)(Kept(lst, vs)[i]), used) &&
      Kept(lst, vs)[i] == used[FirstWithKey(GnumAt(vs), GnumAt(vs)(Kept(lst, vs)[i]), used)]
  {
    var kept := Kept(lst, vs);
    assert kept[i] in kept;
    SortDedupKeepsFirst(GnumAt(vs), Used(lst, |vs|), kept[i]);
  }

  /**
   * On a list that uses every vertex, whose vertices are in strictly
   * increasing global number, vertex_clean keeps every vertex.
   */
  lemma KeptOfClean(lst: seq<int>, vs: seq<Vertex>)
    requires forall v :: 0 <= v < |vs| ==> v in lst
    requires forall i, j :: 0 <= i < j < |vs| ==> vs[i].gnum < vs[j].gnum
    ensures Kept(lst, vs) == Range(|vs|)
  {
    var key := GnumAt(vs);
    UsedAll(lst, |vs|);
    assert StrictlySortedBy(key, Range(|vs|));
    SortDedupSorted(key, Range(|vs|));
  }

  /** On such a list, vertex_clean renumbers every vertex to itself. */
  lemma NewIdOfClean(lst: seq<int>, vs: seq<Vertex>, v: int)
    requires forall u :: 0 <= u < |vs| ==> u in lst
    requires forall i, j :: 0 <= i < j < |vs| ==> vs[i].gnum < vs[j].gnum
    requires 0 <= v < |vs|
    ensures NewId(lst, vs, v) == v
  {
    KeptOfClean(lst, vs);
    var key := GnumAt(vs);
    assert StrictlySortedBy(key, Range(|vs|));
    SortedKeyPosition(key, Range(|vs|), v);
  }

  /** Cleaning the vertices of an already cleaned list changes nothing. */
  lemma VertexCleanIdempotent(lst: seq<int>, vs: seq<Vertex>)
    requires Below(lst, |vs|)
    ensures Below(VertexClean(lst, vs).lst, |VertexClean(lst, vs).vertices|)
    ensures VertexClean(VertexClean(lst, vs).lst, VertexClean(lst, vs).vertices) == VertexClean(lst, vs)
  {
    var r := VertexClean(lst, vs);
    VertexCleanFacts(lst, vs);
    KeptOfClean(r.lst, r.vertices);
    var r2 := VertexClean(r.lst, r.vertices);
    forall k | 0 <= k < |r.lst| ensures r2.lst[k] == r.lst[k] {
      NewIdOfClean(r.lst, r.vertices, r.lst[k]);
    }
    assert r2.lst == r.lst;
    forall k | 0 <= k < |r.vertices| ensures r2.vertices[k] == r.vertices[k] {
      assert Kept(r.lst, r.vertices)[k] == k;
    }
    assert r2.vertices == r.vertices;
  }
}
