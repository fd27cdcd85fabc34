/**
 * The join mesh (cs_join_mesh_t): faces given by a global number and a CSR
 * face -> vertex connectivity, over an array of join vertices.  Its
 * operations rewrite the connectivity and the vertices in place.
 */
module JoinMesh {
  import opened Csr
  import opened JoinVertex
  import opened JoinFaces
  import opened JoinEdges
  import opened JoinRenumber
  import opened JoinUpdate

  /** Every vertex of every face of fs is a vertex id below n. */
  ghost predicate FacesBelow(fs: seq<Face>, n: int)
  {
    forall i, x :: 0 <= i < |fs| && x in fs[i].vtx ==> 0 <= x < n
  }

  /** No face of fs has a degenerate edge: each vertex differs from the next one. */
  ghost predicate NoDegenerateEdge(fs: seq<Face>)
  {
    forall i, j :: 0 <= i < |fs| && 0 <= j < |fs[i].vtx| ==> fs[i].vtx[j] != Next(fs[i].vtx, j)
  }

  /** The faces of a connectivity (idx, lst) with global numbers gnum. */
  function FacesOf(gnum: seq<nat>, idx: seq<int>, lst: seq<int>): (fs: seq<Face>)
    requires |idx| == |gnum| + 1 && IsIndex(idx, |lst|)
    ensures |fs| == |gnum|
    ensures forall i :: 0 <= i < |gnum| ==> fs[i].gnum == gnum[i] && fs[i].vtx == lst[idx[i]..idx[i + 1]]
  {
    var rows := Unpack(idx, lst);
    seq(|gnum|, i requires 0 <= i < |gnum| => Face(gnum[i], rows[i]))
  }

  /** The global numbers of the vertices vs, by vertex id. */
  function Gnums(vs: seq<Vertex>): (g: seq<nat>)
    ensures |g| == |vs| && forall v :: 0 <= v < |vs| ==> g[v] == vs[v].gnum
  {
    seq(|vs|, v requires 0 <= v < |vs| => vs[v].gnum)
  }

  /** The vertex lists of the faces fs. */
  function FaceRows(fs: seq<Face>): (rows: seq<seq<int>>)
    ensures |rows| == |fs| && forall i :: 0 <= i < |fs| ==> rows[i] == fs[i].vtx
  {
    seq(|fs|, i requires 0 <= i < |fs| => fs[i].vtx)
  }

  /**
   * Packing the vertex lists of fs gives a connectivity whose faces are fs
   * and whose flat list holds exactly the vertices of the faces.
   */
  lemma PackFaces(fs: seq<Face>, idx: seq<int>, lst: seq<int>)
    requires IsIndex(idx, |lst|) && |idx| == |fs| + 1 && Unpack(idx, lst) == FaceRows(fs)
    requires lst == Flatten(FaceRows(fs))
    ensures FacesOf(seq(|fs|, i requires 0 <= i < |fs| => fs[i].gnum), idx, lst) == fs
    ensures forall x :: x in lst <==> exists i :: 0 <= i < |fs| && x in fs[i].vtx
  {
    var gs := seq(|fs|, i requires 0 <= i < |fs| => fs[i].gnum);
    var rows := FaceRows(fs);
    assert forall i :: 0 <= i < |fs| ==> FacesOf(gs, idx, lst)[i] == fs[i];
    forall x ensures x in lst <==> exists i :: 0 <= i < |fs| && x in fs[i].vtx {
      FlattenMember(rows, x);
    }
  }

  /** The global numbers and the packed vertex lists of the faces fs. */
  method FacesPacked(fs: seq<Face>) returns (g: seq<nat>, idx: seq<int>, lst: seq<int>)
    ensures |g| == |fs| && |idx| == |g| + 1 && IsIndex(idx, |lst|)
    ensures FacesOf(g, idx, lst) == fs
    ensures forall x :: x in lst <==> exists i :: 0 <= i < |fs| && x in fs[i].vtx
  {
    idx, lst := Pack(FaceRows(fs));
    PackFaces(fs, idx, lst);
    g := seq(|fs|, i requires 0 <= i < |fs| => fs[i].gnum);
  }

  /** vertex_clean yields a connectivity over the vertices it keeps. */
  lemma VertexCleanBelow(lst: seq<int>, vs: seq<Vertex>, r: Renumbered)
    requires Below(lst, |vs|) && r == JoinRenumber.VertexClean(lst, vs)
    ensures Below(r.lst, |r.vertices|)
  {
    VertexCleanFacts(lst, vs);
  }

  /**
   * The mesh of the rows sel of (idx, lst) over vs, restricted to the
   * vertices it uses, is well formed, uses each of its vertices, and its row
   * i has the vertex records of row sel[i].
   */
  lemma SubsetFacts(idx: seq<int>, lst: seq<int>, vs: seq<Vertex>, sel: seq<int>,
                    nidx: seq<int>, nlst: seq<int>, r: Renumbered)
    requires IsIndex(idx, |lst|) && Below(lst, |vs|)
    requires forall j :: 0 <= j < |sel| ==> 0 <= sel[j] < |idx| - 1
    requires nidx == Offsets(SelectRows(idx, lst, sel)) && nlst == Flatten(SelectRows(idx, lst, sel))
    requires Below(nlst, |vs|) && r == Restrict(nlst, vs)
    ensures IsIndex(nidx, |r.lst|) && |nidx| == |sel| + 1 && Below(r.lst, |r.vertices|)
    ensures forall v :: 0 <= v < |r.vertices| ==> v in r.lst
    ensures |r.vertices| <= |vs|
    ensures forall i :: 0 <= i < |sel| ==> RowVertices(nidx, r.lst, r.vertices, i) == RowVertices(idx, lst, vs, sel[i])
  {
    OffsetsIsIndex(SelectRows(idx, lst, sel));
    RestrictFacts(nlst, vs);
    forall i | 0 <= i < |sel| ensures RowVertices(nidx, r.lst, r.vertices, i) == RowVertices(idx, lst, vs, sel[i]) {
      SubsetRowVertices(idx, lst, vs, sel, i);
    }
  }

  /**
   * The connectivity of create_from_subset on values: the rows sel of
   * (idx, lst) with their global numbers, packed, over the vertices of vs
   * they use.
   */
  method SubsetOf(gnum: seq<nat>, idx: seq<int>, lst: seq<int>, vs: seq<Vertex>, sel: seq<int>)
    returns (g: seq<nat>, nidx: seq<int>, nlst: seq<int>, nvs: seq<Vertex>)
    requires |idx| == |gnum| + 1 && IsIndex(idx, |lst|) && Below(lst, |vs|)
    requires forall j :: 0 <= j < |sel| ==> 0 <= sel[j] < |idx| - 1
    ensures |g| == |sel| && forall i :: 0 <= i < |sel| ==> g[i] == gnum[sel[i]]
    ensures IsIndex(nidx, |nlst|) && |nidx| == |sel| + 1 && Below(nlst, |nvs|)
    ensures forall v :: 0 <= v < |nvs| ==> v in nlst
    ensures |nvs| <= |vs|
    ensures forall i :: 0 <= i < |sel| ==> RowVertices(nidx, nlst, nvs, i) == RowVertices(idx, lst, vs, sel[i])
  {
    var rows := SelectRows(idx, lst, sel);
    SubsetBelow(idx, lst, |vs|, sel);
    var plst;
    nidx, plst := Pack(rows);
    var r := Restrict(plst, vs);
    SubsetFacts(idx, lst, vs, sel, nidx, plst, r);
    g := seq(|sel|, i requires 0 <= i < |sel| => gnum[sel[i]]);
    nlst, nvs := r.lst, r.vertices;
  }

  /** Entry k of row i of a CSR connectivity is an entry of the flat list. */
  lemma RowEntryOf(idx: seq<int>, lst: seq<int>, rows: seq<seq<int>>, i: int, k: int)
    requires IsIndex(idx, |lst|) && Unpack(idx, lst) == rows
    requires 0 <= i < |rows| && 0 <= k < |rows[i]|
    ensures 0 <= idx[i] + k < |lst| && lst[idx[i] + k] == rows[i][k]
  {
    assert idx[0] <= idx[i] <= idx[i + 1] <= idx[|idx| - 1];
  }

  /** The vertex records of row i of a CSR connectivity over vs. */
  ghost function RowVertices(idx: seq<int>, lst: seq<int>, vs: seq<Vertex>, i: int): (r: seq<Vertex>)
    requires IsIndex(idx, |lst|) && Below(lst, |vs|) && 0 <= i < |idx| - 1
    ensures 0 <= idx[i] <= idx[i + 1] <= |lst| && |r| == idx[i + 1] - idx[i]
    ensures forall k :: 0 <= k < |r| ==> r[k] == vs[lst[idx[i] + k]]
  {
    assert idx[0] <= idx[i] <= idx[i + 1] <= idx[|idx| - 1];
    seq(idx[i + 1] - idx[i], k requires 0 <= k < idx[i + 1] - idx[i] => vs[lst[idx[i] + k]])
  }

  /**
   * When row i of (nidx, nlst) is row j of (idx, lst) and the renumbered list
   * rlst over rvs designates the same vertex records as nlst over vs, row i
   * of (nidx, rlst) has the vertex records of row j of (idx, lst).
   */
  lemma RowCorrespond(nidx: seq<int>, nlst: seq<int>, rows: seq<seq<int>>, rlst: seq<int>, rvs: seq<Vertex>,
                      idx: seq<int>, lst: seq<int>, vs: seq<Vertex>, i: int, j: int)
    requires IsIndex(nidx, |nlst|) && Unpack(nidx, nlst) == rows && 0 <= i < |rows|
    requires |rlst| == |nlst| && Below(rlst, |rvs|) && Below(nlst, |vs|)
    requires forall k :: 0 <= k < |nlst| ==> rvs[rlst[k]] == vs[nlst[k]]
    requires IsIndex(idx, |lst|) && Below(lst, |vs|) && 0 <= j < |idx| - 1
    requires 0 <= idx[j] <= idx[j + 1] <= |lst| && rows[i] == lst[idx[j]..idx[j + 1]]
    ensures RowVertices(nidx, rlst, rvs, i) == RowVertices(idx, lst, vs, j)
  {
    var a, b := RowVertices(nidx, rlst, rvs, i), RowVertices(idx, lst, vs, j);
    forall k | 0 <= k < |a| ensures a[k] == b[k] {
      RowEntryOf(nidx, nlst, rows, i, k);
    }
  }

  /** The rows sel[0], sel[1], ... of a CSR connectivity. */
  function SelectRows(idx: seq<int>, lst: seq<int>, sel: seq<int>): (rows: seq<seq<int>>)
    requires IsIndex(idx, |lst|)
    requires forall i :: 0 <= i < |sel| ==> 0 <= sel[i] < |idx| - 1
    ensures |rows| == |sel|
    ensures forall i :: 0 <= i < |sel| ==> rows[i] == lst[idx[sel[i]]..idx[sel[i] + 1]]
  {
    var u := Unpack(idx, lst);
    seq(|sel|, i requires 0 <= i < |sel| => u[sel[i]])
  }

  /** The selected rows use only vertices that the whole connectivity uses. */
  lemma SubsetBelow(idx: seq<int>, lst: seq<int>, n: int, sel: seq<int>)
    requires IsIndex(idx, |lst|) && Below(lst, n)
    requires forall i :: 0 <= i < |sel| ==> 0 <= sel[i] < |idx| - 1
    ensures Below(Flatten(SelectRows(idx, lst, sel)), n)
  {
    var rows := SelectRows(idx, lst, sel);
    var flat := Flatten(rows);
    forall k | 0 <= k < |flat| ensures 0 <= flat[k] < n {
      FlattenMember(rows, flat[k]);
      var i :| 0 <= i < |rows| && flat[k] in rows[i];
      assert idx[0] <= idx[sel[i]] <= idx[sel[i] + 1] <= idx[|idx| - 1];
      assert flat[k] in lst;
    }
  }

  /**
   * Row i of the selected rows, restricted to the vertices they use, has the
   * vertex records of row sel[i] of the whole connectivity.
   */
  lemma SubsetRowVertices(idx: seq<int>, lst: seq<int>, vs: seq<Vertex>, sel: seq<int>, i: int)
    requires IsIndex(idx, |lst|) && Below(lst, |vs|)
    requires forall j :: 0 <= j < |sel| ==> 0 <= sel[j] < |idx| - 1
    requires 0 <= i < |sel|
    ensures var rows := SelectRows(idx, lst, sel);
      && IsIndex(Offsets(rows), |Flatten(rows)|) && |Offsets(rows)| == |sel| + 1
      && Below(Flatten(rows), |vs|)
      && Below(Restrict(Flatten(rows), vs).lst, |Restrict(Flatten(rows), vs).vertices|)
      && RowVertices(Offsets(rows), Restrict(Flatten(rows), vs).lst, Restrict(Flatten(rows), vs).vertices, i)
         == RowVertices(idx, lst, vs, sel[i])
  {
    var rows := SelectRows(idx, lst, sel);
    PackUnpack(rows);
    SubsetBelow(idx, lst, |vs|, sel);
    var nidx, nlst := Offsets(rows), Flatten(rows);
    var r := Restrict(nlst, vs);
    RestrictFacts(nlst, vs);
    assert idx[0] <= idx[sel[i]] <= idx[sel[i] + 1] <= idx[|idx| - 1];
    RowCorrespond(nidx, nlst, rows, r.lst, r.vertices, idx, lst, vs, i, sel[i]);
  }

  class Mesh {
    var name: string

    var nFaces: int
    var nGFaces: nat
    var faceGnum: seq<nat>
    var faceVtxIdx: seq<int>
    var faceVtxLst: seq<int>

    var nVertices: int
    var nGVertices: nat
    var vertices: seq<Vertex>

    /** The face index is an index over the flat vertex list, with one row per face. */
    predicate IndexValid()
      reads this
    {
      && nFaces == |faceGnum|
      && |faceVtxIdx| == nFaces + 1
      && IsIndex(faceVtxIdx, |faceVtxLst|)
    }

    /** The connectivity refers to vertex ids below the number of vertices. */
    ghost predicate ConnectivityValid()
      reads this
    {
      IndexValid() && nVertices >= 0 && Below(faceVtxLst, nVertices)
    }

    /** A well-formed mesh: a valid connectivity over exactly nVertices vertex records. */
    ghost predicate Valid()
      reads this
    {
      ConnectivityValid() && |vertices| == nVertices
    }

    /** The mesh has no face and no vertex. */
    predicate Empty()
      reads this
    {
      && nFaces == 0 && nGFaces == 0 && faceGnum == []
      && faceVtxIdx == [0] && faceVtxLst == []
      && nVertices == 0 && nGVertices == 0 && vertices == []
    }

    /** The faces of the mesh as values, in face order. */
    function Faces(): (fs: seq<Face>)
      reads this
      requires IndexValid()
      ensures |fs| == nFaces
      ensures forall i :: 0 <= i < nFaces ==>
                fs[i].gnum == faceGnum[i] && fs[i].vtx == faceVtxLst[faceVtxIdx[i]..faceVtxIdx[i + 1]]
    {
      FacesOf(faceGnum, faceVtxIdx, faceVtxLst)
    }

    /** The vertex records of face i, in the order of the face. */
    ghost function FaceVertices(i: int): seq<Vertex>
      reads this
      requires Valid() && 0 <= i < nFaces
    {
      RowVertices(faceVtxIdx, faceVtxLst, vertices, i)
    }

    /** The vertices of the faces are the entries of the flat list. */
    lemma FacesBelowOf()
      requires ConnectivityValid()
      ensures FacesBelow(Faces(), nVertices)
    {
      var fs := Faces();
      forall i, x | 0 <= i < |fs| && x in fs[i].vtx ensures 0 <= x < nVertices {
        var k :| 0 <= k < |fs[i].vtx| && fs[i].vtx[k] == x;
        assert x == faceVtxLst[faceVtxIdx[i] + k];
      }
    }

    /** cs_join_mesh_create: an empty mesh carrying the given name. */
    constructor(name: string)
      ensures this.name == name && Empty() && Valid()
    {
      this.name := name;
      nFaces, nGFaces, faceGnum := 0, 0, [];
      faceVtxIdx, faceVtxLst := [0], [];
      nVertices, nGVertices, vertices := 0, 0, [];
    }

    /** cs_join_mesh_reset: the mesh is emptied and keeps its name. */
    method Reset()
      modifies this
      ensures name == old(name) && Empty() && Valid()
    {
      nFaces, nGFaces, faceGnum := 0, 0, [];
      faceVtxIdx, faceVtxLst := [0], [];
      nVertices, nGVertices, vertices := 0, 0, [];
    }

    /**
     * cs_join_mesh_copy: the mesh to fill, created with the name of the
     * reference when there is none, receives a copy of every face and vertex
     * of the reference; an existing mesh keeps its name.
     */
    static method Copy(mesh: Mesh?, ref: Mesh) returns (m: Mesh)
      modifies mesh
      ensures mesh == null ==> fresh(m) && m.name == ref.name
      ensures mesh != null ==> m == mesh && m.name == old(mesh.name)
      ensures m.nFaces == old(ref.nFaces) && m.nGFaces == old(ref.nGFaces)
      ensures m.faceGnum == old(ref.faceGnum)
      ensures m.faceVtxIdx == old(ref.faceVtxIdx) && m.faceVtxLst == old(ref.faceVtxLst)
      ensures m.nVertices == old(ref.nVertices) && m.nGVertices == old(ref.nGVertices)
      ensures m.vertices == old(ref.vertices)
      ensures old(ref.Valid()) ==> m.Valid()
    {
      if mesh == null {
        m := new Mesh(ref.name);
      } else {
        m := mesh;
      }
      m.nFaces, m.nGFaces, m.faceGnum := ref.nFaces, ref.nGFaces, ref.faceGnum;
      m.faceVtxIdx, m.faceVtxLst := ref.faceVtxIdx, ref.faceVtxLst;
      m.nVertices, m.nGVertices, m.vertices := ref.nVertices, ref.nGVertices, ref.vertices;
    }

    /**
     * cs_join_mesh_create_from_subset: the mesh of the parent faces listed,
     * in order, in selection.  Face i is parent face selection[i]: same
     * global number and same vertex records in the same order.  Only the
     * vertices these faces use are kept; they are those of
     * JoinRenumber.Restrict, whose RestrictFacts proves that they keep their
     * parent order.
     */
    constructor FromSubset(name: string, selection: seq<int>, parent: Mesh)
      requires parent.Valid()
      requires forall i :: 0 <= i < |selection| ==> 0 <= selection[i] < parent.nFaces
      requires forall i, j :: 0 <= i < j < |selection| ==> selection[i] < selection[j]
      ensures this.name == name && Valid()
      ensures nFaces == |selection| && nGFaces == |selection|
      ensures forall i :: 0 <= i < nFaces ==> faceGnum[i] == parent.faceGnum[selection[i]]
      ensures forall i :: 0 <= i < nFaces ==> FaceVertices(i) == parent.FaceVertices(selection[i])
      ensures forall v :: 0 <= v < nVertices ==> v in faceVtxLst
      ensures nVertices <= parent.nVertices && nGVertices == nVertices
    {
      var g, idx, lst, vs := SubsetOf(parent.faceGnum, parent.faceVtxIdx, parent.faceVtxLst, parent.vertices, selection);
      this.name := name;
      nFaces, nGFaces := |selection|, |selection|;
      faceGnum := g;
      faceVtxIdx, faceVtxLst := idx, lst;
      nVertices, nGVertices, vertices := |vs|, |vs|, vs;
    }

    /**
     * Replaces the faces by fs, packing their vertex lists into a new index
     * and flat list.
     */
    method SetFaces(fs: seq<Face>)
      modifies this
      ensures IndexValid() && Faces() == fs
      ensures forall x :: x in faceVtxLst <==> exists i :: 0 <= i < |fs| && x in fs[i].vtx
      ensures name == old(name) && nGFaces == old(nGFaces)
      ensures nVertices == old(nVertices) && nGVertices == old(nGVertices) && vertices == old(vertices)
    {
      var g, idx, lst := FacesPacked(fs);
      nFaces := |fs|;
      faceGnum, faceVtxIdx, faceVtxLst := g, idx, lst;
    }

    /** After SetFaces, the connectivity is valid when the new faces use only known vertices. */
    lemma BelowOfFaces(fs: seq<Face>)
      requires IndexValid() && nVertices >= 0 && FacesBelow(fs, nVertices)
      requires forall x :: x in faceVtxLst <==> exists i :: 0 <= i < |fs| && x in fs[i].vtx
      ensures ConnectivityValid()
    {
      forall k | 0 <= k < |faceVtxLst| ensures 0 <= faceVtxLst[k] < nVertices {
        assert faceVtxLst[k] in faceVtxLst;
      }
    }

    /**
     * cs_join_mesh_face_order: the faces sorted by global face number, of
     * faces with the same global number only the first kept
     * (JoinFaces.FaceOrderFacts states what the result then satisfies).
     */
    method FaceOrder()
      requires ConnectivityValid()
      modifies this
      ensures ConnectivityValid()
      ensures Faces() == JoinFaces.FaceOrder(old(Faces()))
      ensures name == old(name) && nGFaces == old(nGFaces)
      ensures nVertices == old(nVertices) && nGVertices == old(nGVertices) && vertices == old(vertices)
    {
      var before := Faces();
      FacesBelowOf();
      var fs := JoinFaces.FaceOrder(before);
      FaceOrderFacts(before);
      SetFaces(fs);
      BelowOfFaces(fs);
    }

    /**
     * cs_join_mesh_sync_vertices, with the copies held by the other
     * processes given as remote: every vertex takes the least tolerance of
     * the copies of its global number and keeps its global number and
     * coordinates.
     */
    method SyncVertices(remote: seq<Vertex>)
      modifies this
      ensures vertices == Synced(old(vertices), remote)
      ensures forall i :: 0 <= i < |vertices| ==>
                && vertices[i].gnum == old(vertices[i].gnum)
                && vertices[i].coord == old(vertices[i].coord)
                && forall w :: w in old(vertices) + remote && w.gnum == vertices[i].gnum ==>
                     vertices[i].tolerance <= w.tolerance
      ensures name == old(name) && nFaces == old(nFaces) && nGFaces == old(nGFaces)
      ensures faceGnum == old(faceGnum) && faceVtxIdx == old(faceVtxIdx) && faceVtxLst == old(faceVtxLst)
      ensures nVertices == old(nVertices) && nGVertices == old(nGVertices)
      ensures old(Valid()) ==> Valid()
    {
      ghost var before := vertices;
      vertices := Synced(vertices, remote);
      forall i | 0 <= i < |before| {
        SyncedMinimal(before, remote, i);
      }
    }

    /**
     * cs_join_mesh_vertex_clean: removes the vertices whose global number an
     * earlier used vertex already carries and the vertices no face uses
     * (JoinRenumber.VertexCleanFacts states what the result then satisfies).
     */
    method VertexClean()
      requires Valid()
      modifies this
      ensures Valid()
      ensures faceVtxLst == JoinRenumber.VertexClean(old(faceVtxLst), old(vertices)).lst
      ensures vertices == JoinRenumber.VertexClean(old(faceVtxLst), old(vertices)).vertices
      ensures name == old(name) && nFaces == old(nFaces) && nGFaces == old(nGFaces)
      ensures faceGnum == old(faceGnum) && faceVtxIdx == old(faceVtxIdx) && nGVertices == old(nGVertices)
    {
      var r := JoinRenumber.VertexClean(faceVtxLst, vertices);
      VertexCleanBelow(faceVtxLst, vertices, r);
      faceVtxLst, vertices, nVertices := r.lst, r.vertices, |r.vertices|;
    }

    /**
     * cs_join_mesh_clean: every face loses its degenerate edges, a vertex
     * being kept when it differs from the next one; afterwards no face has
     * a degenerate edge.
     */
    method Clean(verbosity: int)
      requires ConnectivityValid()
      modifies this
      ensures ConnectivityValid()
      ensures |Faces()| == |old(Faces())|
      ensures forall i :: 0 <= i < nFaces ==>
                Faces()[i] == Face(old(Faces())[i].gnum, Collapse(old(Faces())[i].vtx))
      ensures NoDegenerateEdge(Faces())
      ensures name == old(name) && nGFaces == old(nGFaces)
      ensures nVertices == old(nVertices) && nGVertices == old(nGVertices) && vertices == old(vertices)
    {
      var before := Faces();
      FacesBelowOf();
      var fs: seq<Face> := [];
      var i := 0;
      while i < |before|
        invariant 0 <= i <= |before| && |fs| == i
        invariant forall k :: 0 <= k < i ==> fs[k] == Face(before[k].gnum, Collapse(before[k].vtx))
      {
        fs := fs + [Face(before[i].gnum, Collapse(before[i].vtx))];
        i := i + 1;
      }
      CollapsedFaces(before, fs, nVertices);
      SetFaces(fs);
      BelowOfFaces(fs);
    }

    /**
     * cs_join_mesh_define_edges: the edge structure of the faces of the mesh,
     * its couples ordered in the global numbering of the vertices.
     */
    function DefineEdges(): (e: Edges)
      reads this
      requires Valid()
      ensures EdgesValid(e) && e.nVertices == nVertices
      ensures e.def == EdgeDefs(Unpack(faceVtxIdx, faceVtxLst), Gnums(vertices))
    {
      var rows := Unpack(faceVtxIdx, faceVtxLst);
      RowsBelow();
      DefineEdgesValid(rows, Gnums(vertices));
      JoinEdges.DefineEdges(rows, Gnums(vertices))
    }

    /** The rows of the connectivity refer only to vertex ids below nVertices. */
    lemma RowsBelow()
      requires ConnectivityValid()
      ensures RefsBelow(Unpack(faceVtxIdx, faceVtxLst), nVertices)
    {
      var rows := Unpack(faceVtxIdx, faceVtxLst);
      forall i, j | 0 <= i < |rows| && 0 <= j < |rows[i]| ensures 0 <= rows[i][j] < nVertices {
        assert rows[i][j] == faceVtxLst[faceVtxIdx[i] + j];
      }
    }

    /**
     * Every couple of consecutive distinct vertices of a face is an edge of
     * DefineEdges, in one orientation or the other.
     */
    lemma EdgesCoverFaces(i: int, j: int)
      requires Valid()
      requires 0 <= i < nFaces && 0 <= j < |Faces()[i].vtx|
      requires Faces()[i].vtx[j] != Next(Faces()[i].vtx, j)
      ensures var f := Faces()[i].vtx;
        (f[j], Next(f, j)) in DefineEdges().def || (Next(f, j), f[j]) in DefineEdges().def
    {
      RowsBelow();
      DefineEdgesCovers(Unpack(faceVtxIdx, faceVtxLst), Gnums(vertices), i, j);
    }

    /**
     * After clean, the edges that DefineEdges builds are the edges every
     * face traverses, as update demands.
     */
    lemma CleanFacesOnEdges()
      requires Valid() && NoDegenerateEdge(Faces())
      ensures forall i :: 0 <= i < nFaces ==> FaceOnEdges(Faces()[i].vtx, DefineEdges(), nVertices)
    {
      FacesBelowOf();
      forall i | 0 <= i < nFaces ensures FaceOnEdges(Faces()[i].vtx, DefineEdges(), nVertices) {
        var f := Faces()[i].vtx;
        forall j | 0 <= j < |f|
          ensures 0 <= f[j] < nVertices
          ensures (f[j], Next(f, j)) in DefineEdges().def || (Next(f, j), f[j]) in DefineEdges().def
        {
          assert f[j] in f;
          EdgesCoverFaces(i, j);
        }
      }
    }

    /**
     * cs_join_mesh_update: every face is renumbered through old2new and
     * receives, on each edge it traverses, the new vertices of that edge;
     * every vertex id is then below the new number of vertices.
     */
    method Update(e: Edges, p: UpdatePlan)
      requires ConnectivityValid() && PlanValid(e, p, nVertices)
      requires forall i :: 0 <= i < nFaces ==> FaceOnEdges(Faces()[i].vtx, e, nVertices)
      modifies this
      ensures ConnectivityValid()
      ensures nVertices == p.nNewVertices
      ensures |Faces()| == |old(Faces())|
      ensures forall i :: 0 <= i < nFaces ==>
                Faces()[i] == Face(old(Faces())[i].gnum, UpdatedFace(old(Faces())[i].vtx, e, p))
      ensures name == old(name) && nGFaces == old(nGFaces)
      ensures nGVertices == old(nGVertices) && vertices == old(vertices)
    {
      var before := Faces();
      var fs := UpdateFaces(before, e, p);
      UpdatedFaces(before, fs, e, p);
      SetFaces(fs);
      nVertices := p.nNewVertices;
      BelowOfFaces(fs);
    }
  }

  /** update on a list of faces, one face after the other. */
  method UpdateFaces(before: seq<Face>, e: Edges, p: UpdatePlan) returns (fs: seq<Face>)
    requires PlanValid(e, p, |p.old2new|)
    requires forall k :: 0 <= k < |before| ==> FaceOnEdges(before[k].vtx, e, |p.old2new|)
    ensures |fs| == |before|
    ensures forall k :: 0 <= k < |fs| ==> fs[k] == Face(before[k].gnum, UpdatedFace(before[k].vtx, e, p))
  {
    ghost var target := seq(|before|, k requires 0 <= k < |before| => Face(before[k].gnum, UpdatedFace(before[k].vtx, e, p)));
    fs := [];
    var i := 0;
    while i < |before|
      invariant 0 <= i <= |before| && |fs| == i
      invariant forall k :: 0 <= k < i ==> fs[k] == target[k]
    {
      var g := UpdateFace(before[i].vtx, e, p);
      assert target[i] == Face(before[i].gnum, g);
      AppendPrefix(fs, target, Face(before[i].gnum, g));
      fs := fs + [Face(before[i].gnum, g)];
      i := i + 1;
    }
  }

  /** Appending the next entry of target to a prefix of it gives the next prefix. */
  lemma AppendPrefix<T>(fs: seq<T>, target: seq<T>, x: T)
    requires |fs| < |target| && x == target[|fs|]
    requires forall k :: 0 <= k < |fs| ==> fs[k] == target[k]
    ensures forall k :: 0 <= k < |fs| + 1 ==> (fs + [x])[k] == target[k]
  {
  }

  /** Faces whose vertex lists are collapsed use no new vertex and have no degenerate edge. */
  lemma CollapsedFaces(before: seq<Face>, fs: seq<Face>, n: int)
    requires |fs| == |before|
    requires forall k :: 0 <= k < |fs| ==> fs[k] == Face(before[k].gnum, Collapse(before[k].vtx))
    requires FacesBelow(before, n)
    ensures FacesBelow(fs, n) && NoDegenerateEdge(fs)
  {
    forall k | 0 <= k < |fs| {
      CollapseFacts(before[k].vtx);
    }
  }

  /** Updated faces use only new vertex ids. */
  lemma UpdatedFaces(before: seq<Face>, fs: seq<Face>, e: Edges, p: UpdatePlan)
    requires PlanValid(e, p, |p.old2new|)
    requires forall k :: 0 <= k < |before| ==> FaceOnEdges(before[k].vtx, e, |p.old2new|)
    requires |fs| == |before|
    requires forall k :: 0 <= k < |fs| ==> fs[k] == Face(before[k].gnum, UpdatedFace(before[k].vtx, e, p))
    ensures FacesBelow(fs, p.nNewVertices)
  {
    forall k | 0 <= k < |fs| {
      UpdatedFaceBelow(before[k].vtx, e, p);
    }
  }
}
