# code_saturne core: join mesh, CDO domain, solver settings, iterative-algorithm reset

This project is a Dafny model of four pieces of code_saturne, with proofs about them:

- **Join mesh** (`cs_join_mesh_t`, used when the faces of non-conforming
  meshes are joined). A mesh is a list of faces. Each face has a global
  number and a face -> vertex connectivity stored in compressed-row form: an
  index `face_vtx_idx` plus a flat list `face_vtx_lst`. The vertex array
  holds records `(tolerance, coord, gnum)`. The model covers:
  - creation, creation from a subset of faces, reset and copy;
  - ordering by global face number (`face_order`);
  - the minimal-tolerance synchronisation of vertices and the two MPI
    reduction combinators;
  - removal of duplicated and unused vertices (`vertex_clean`);
  - removal of degenerate edges (`clean`);
  - the edge structure (`define_edges`) and the signed edge lookup (`get_edge`);
  - the rewriting of faces after the merge step (`update`).
  - Files: `csr.dfy`, `ordering.dfy`, `join_vertex.dfy`, `join_faces.dfy`,
    `join_edges.dfy`, `join_renumber.dfy`, `join_update.dfy`, `join_mesh.dfy`.
- **CDO computational domain** (`cs_domain_t`): the defaults at creation,
  the CDO activation mode, the computation stage, and the two decisions of
  the time loop (one more iteration? a log now?). File: `cdo_domain.dfy`.
- **Sparse linear solver settings** (`cs_param_sles_t`): the defaults, the
  copy, the validation, the choice of a solver library from the libraries of
  the build, and the definition of a solver of code_saturne's own family.
  File: `param_sles.dfy`.
- **Iterative-algorithm monitoring** (`cs_iter_algo_t`) and its reset.
  File: `iter_algo.dfy`.

Conventions of the model:

- Vertex ids and face ids are 0-based. Edge numbers are 1-based and signed,
  as `get_edge` returns them, because a signed 0 could not carry an
  orientation.
- A record that the C code updates in place is a Dafny `class`. Its arrays
  are `seq` fields that the methods reassign. The methods that rebuild a
  record (the mesh operations built on faces, the parameter checks and
  definitions, the reset) are proved against a pure function of the old
  state, and the properties are lemmas about those functions. The methods
  that set a few fields (`SetCdoMode`, `SetStage`, `Mesh.Reset`, `Copy`,
  `Clean`, `SetValues`) state the new value of each field and frame the rest.
- An error that the C code reports with `bft_error` stops the run. Here it
  is a `Fail` outcome.
- Communication and calls into libraries that are not modelled become
  parameters. The copies of vertices held by other processes, the
  post-coupling `nt_max`, and the libraries present in the build are passed in.

Two points of the join header fix the edge structure:

- **Edge numbering.** `include/base/cs_join_mesh.h:86-87` says that edge
  numbering is defined by the ordering of the couples of vertices in their
  global numbering. The model orients each couple from the vertex that comes
  first in the global numbering and numbers the edges in the lexicographic
  order of their couples in that numbering. Two vertices sharing a global
  number are ordered by local id. After `vertex_clean` no two vertices share
  one, and the order is then that of the couples of global numbers
  (JoinEdges.DefineEdgesGnumOrder).
- **Range of edge numbers.** `get_edge` returns a signed number whose sign
  gives the orientation of the couple (`include/base/cs_join_mesh.h:415-433`).
  With 1-based numbers it satisfies `1 <= |id| <= n_edges`, which
  `JoinEdges.GetEdge` proves.

Some functions are definitions: their contracts only give their shape,
and what they mean is proved by the lemmas beside them. They have no row in
the table. Csr.Row and Csr.Unpack are characterised by Csr.PackUnpack and
Csr.UnpackPack. JoinEdges.FacePairs, JoinEdges.Buckets and
JoinEdges.BuildEdges are characterised by JoinEdges.DefineEdgesCovers,
JoinEdges.BuildEdgesValid and JoinEdges.BuildEdgesListed. JoinRenumber.Range
is characterised by JoinRenumber.UsedAll. JoinUpdate.Segments is
characterised by JoinUpdate.SegmentNoRepeat and JoinUpdate.UpdatedFaceBelow.
JoinMesh.RowVertices, JoinMesh.SelectRows, JoinMesh.FacesOf,
JoinMesh.FaceRows and JoinMesh.Mesh.Faces are characterised by
JoinMesh.SubsetFacts, JoinMesh.PackFaces and JoinMesh.FacesPacked.

## Model

| member | source | states |
|---|---|---|
| JoinVertex.VertexMin | include/base/cs_join_mesh.h:151-164 | the min combinator returns one of its two arguments, with a tolerance no larger than either; on equal tolerances the in/out vertex stays |
| JoinVertex.VertexMax | include/base/cs_join_mesh.h:166-179 | the max combinator returns one of its arguments, with a tolerance no smaller than either; on equal tolerances the in/out vertex stays |
| JoinVertex.MpiVertexMin | include/base/cs_join_mesh.h:151-164 | every one of the first len entries of inout becomes VertexMin of the in and in/out entries there; later entries are unchanged; the two arrays may alias |
| JoinVertex.MpiVertexMax | include/base/cs_join_mesh.h:166-179 | the same with VertexMax |
| JoinVertex.ReduceMin | include/base/cs_join_mesh.h:151-164 | folding the contributions with the min combinator yields one of them, of least tolerance |
| JoinVertex.ReduceMax | include/base/cs_join_mesh.h:166-179 | folding with the max combinator yields a contribution of greatest tolerance |
| JoinVertex.ReduceOrderFree | include/base/cs_join_mesh.h:151-179 | the reduced tolerance depends only on which records contribute, not on their order or on repetitions |
| JoinVertex.Copies | include/base/cs_join_mesh.h:368-377 | the copies of a global number are exactly the vertices carrying it |
| JoinVertex.Synced | include/base/cs_join_mesh.h:368-377 | synchronisation keeps the number of vertices |
| JoinVertex.SyncedMinimal | include/base/cs_join_mesh.h:368-377 | after synchronisation every vertex keeps its global number and coordinates; its tolerance is that of some copy of its number and no copy has a smaller one |
| JoinVertex.SyncedAgree | include/base/cs_join_mesh.h:368-377 | two local vertices with the same global number end with the same tolerance |
| JoinVertex.SyncedOrderFree | include/base/cs_join_mesh.h:368-377 | the result does not depend on the order or repetition of the remote copies |
| JoinVertex.SyncedIdempotent | include/base/cs_join_mesh.h:368-377 | synchronising twice against the same copies is synchronising once |
| JoinVertex.SyncedIdempotentAt | include/base/cs_join_mesh.h:368-377 | vertex i is unchanged by a second synchronisation against the same copies |
| JoinVertex.SyncedFloor | include/base/cs_join_mesh.h:368-377 | after synchronisation vertex i has a tolerance no larger than any copy of the same global number, local or remote |
| JoinVertex.SyncedAttained | include/base/cs_join_mesh.h:368-377 | the tolerance of vertex i after synchronisation is that of one of the copies of its global number |
| Csr.Offsets | include/base/cs_join_mesh.h:115-133 | the offsets of a list of rows start at 0 and end at the total length |
| Csr.OffsetsIsIndex | include/base/cs_join_mesh.h:115-133 | the offsets of any rows form a monotone index over their concatenation |
| Csr.PackUnpack | include/base/cs_join_mesh.h:115-133 | packing rows into CSR form and unpacking gives the rows back |
| Csr.UnpackPack | include/base/cs_join_mesh.h:115-133 | a CSR connectivity is the packing of its own rows: the representation is unique |
| Csr.IndexPrefix | include/base/cs_join_mesh.h:115-133 | dropping the last row keeps a CSR connectivity well formed |
| Csr.UnpackPrefix | include/base/cs_join_mesh.h:115-133 | the rows are the rows of the prefix followed by the last row |
| Csr.UnpackSnoc | include/base/cs_join_mesh.h:115-133 | appending a row to a packed connectivity leaves the earlier rows in place and puts the new one last |
| Csr.FlattenUnpackStep | include/base/cs_join_mesh.h:115-133 | the flat list of a connectivity is that of its prefix followed by its last row |
| Csr.OffsetsUnpackStep | include/base/cs_join_mesh.h:115-133 | the index of a connectivity is that of its prefix extended by the end of its last row |
| Csr.RowSpan | include/base/cs_join_mesh.h:115-133 | row i occupies the offsets Offsets[i] to Offsets[i+1] of the flat list, as many as its length |
| Csr.RowMember | include/base/cs_join_mesh.h:115-133 | an entry of the flat list inside the span of row i is an entry of row i |
| Csr.RowEntry | include/base/cs_join_mesh.h:115-133 | entry k of row i sits at offset Offsets[i]+k of the flat list |
| Csr.FlattenMember | include/base/cs_join_mesh.h:115-133 | an entry of the flat list is an entry of some row, and conversely |
| Csr.Pack | include/base/cs_join_mesh.h:115-133 | the loop that rebuilds face_vtx_idx and face_vtx_lst yields the offsets and concatenation of the rows, a valid index that unpacks to the rows |
| Ordering.FirstWithKey | include/base/cs_join_mesh.h:356-366 | the position of the first entry carrying a key: it carries the key and no earlier entry does |
| Ordering.FirstWithKeyAt | include/base/cs_join_mesh.h:356-366 | an entry with no earlier entry of its key is the first with that key |
| Ordering.IndexOf | include/base/cs_join_mesh.h:221-241 | the first position of x in s |
| Ordering.IndexOfAt | include/base/cs_join_mesh.h:221-241 | in a sequence without repetition the position of s[i] is i |
| Ordering.SortedKeyPosition | include/base/cs_join_mesh.h:356-366 | in a strictly ordered sequence, s[i] is the first entry of its key |
| Ordering.ConsSorted | include/base/cs_join_mesh.h:356-366 | an entry below every key of a sorted sequence can be put in front |
| Ordering.InsertBy | include/base/cs_join_mesh.h:356-366 | insertion keeps the order and adds x exactly when its key is absent |
| Ordering.InsertByKeys | include/base/cs_join_mesh.h:356-366 | insertion adds the key of x and no other |
| Ordering.SortDedup | include/base/cs_join_mesh.h:356-366 | ordering with removal of redundancies: strictly increasing keys, entries from the input, the same set of keys |
| Ordering.SortDedupKeepsFirst | include/base/cs_join_mesh.h:356-366 | the entry kept for a key is the first input entry with that key |
| Ordering.InsertByLast | include/base/cs_join_mesh.h:356-366 | inserting an entry above every key appends it |
| Ordering.SortDedupSorted | include/base/cs_join_mesh.h:356-366 | an already ordered, redundancy-free sequence is left as it is |
| Ordering.SortedUnique | include/base/cs_join_mesh.h:356-366 | two strictly ordered sequences with the same entries are equal |
| Ordering.SortDedupDeterministic | include/base/cs_join_mesh.h:356-366 | when equal keys mean equal entries, the result depends only on which entries occur |
| Ordering.SameKeySame | include/base/cs_join_mesh.h:356-366 | under that hypothesis two entries with the same key are equal |
| JoinFaces.FaceOrderFacts | include/base/cs_join_mesh.h:356-366 | after face_order the global face numbers increase strictly, every face is an input face, and every input global number is still present |
| JoinFaces.FaceOrderKeepsFirst | include/base/cs_join_mesh.h:356-366 | of the faces with one global number, the first one is kept |
| JoinFaces.FaceOrderIdempotent | include/base/cs_join_mesh.h:356-366 | ordering ordered faces changes nothing |
| JoinFaces.FaceOrderDeterministic | include/base/cs_join_mesh.h:356-366 | when copies of a face are equal, the order of arrival and repetitions do not matter |
| JoinFaces.KeepDistinct | include/base/cs_join_mesh.h:390-400 | keeping the entries that differ from the next one shortens a non-empty list |
| JoinFaces.KeepDistinctFacts | include/base/cs_join_mesh.h:390-400 | no two adjacent entries of the result are equal; it starts with the first entry, does not end with the last one, is empty only for a constant list, and keeps only entries of the input |
| JoinFaces.KeepDistinctMember | include/base/cs_join_mesh.h:390-400 | the result keeps only entries of the list |
| JoinFaces.KeepDistinctEnds | include/base/cs_join_mesh.h:390-400 | a non-empty result starts with the first entry and does not end with the last one; an empty result means a constant list |
| JoinFaces.KeepDistinctNoRepeat | include/base/cs_join_mesh.h:390-400 | no two adjacent entries of the result are equal |
| JoinFaces.Collapse | include/base/cs_join_mesh.h:390-400 | clean on one face never lengthens it |
| JoinFaces.CollapseFacts | include/base/cs_join_mesh.h:390-400 | a cleaned face has no degenerate edge, wrapping around; it never has exactly one vertex; it keeps only vertices of the face |
| JoinFaces.KeepDistinctAll | include/base/cs_join_mesh.h:390-400 | with no equal adjacent entries only the last entry is dropped |
| JoinFaces.CollapseClean | include/base/cs_join_mesh.h:390-400 | a face without degenerate edge is left as it is |
| JoinFaces.CollapseRepeated | include/base/cs_join_mesh.h:390-400 | the face [A, B, B, C] becomes [A, B, C] |
| JoinEdges.EdgeNumber | include/base/cs_join_mesh.h:415-433 | the signed number of an edge couple: non-zero, within ±n_edges, positive when def has the order (v1, v2), negative when it has (v2, v1) |
| JoinEdges.EdgeNumberUnique | include/base/cs_join_mesh.h:415-433 | no other number meets the sign convention |
| JoinEdges.SliceBounds | include/base/cs_join_mesh.h:95-109 | the index slice of a vertex lies within the adjacency list |
| JoinEdges.SliceEntry | include/base/cs_join_mesh.h:95-109 | entry k of the slice of V1 gives partner V1x and the number of edge (V1, V1x) |
| JoinEdges.AbsentNotEdge | include/base/cs_join_mesh.h:95-109 | a partner missing from the slice of V1 forms no edge (V1, partner) |
| JoinEdges.GetEdge | include/base/cs_join_mesh.h:415-433 | scanning the slices of v1 and then v2 yields the signed edge number: positive for the stored order, negative for the reverse |
| JoinEdges.ScanSlice | include/base/cs_join_mesh.h:415-433 | the scan of the slice of v stops at the first position holding x, or at the end of the slice when x is absent |
| JoinEdges.Canon | include/base/cs_join_mesh.h:84-87 | a couple of two distinct vertices of the mesh is oriented from the one that comes first in the global numbering; the couple is either (a, b) or (b, a) |
| JoinEdges.Candidates | include/base/cs_join_mesh.h:84-87 | the couples of distinct vertices among the face couples, each oriented in the global numbering: each comes from a face couple and each such face couple yields one |
| JoinEdges.RankOrder | include/base/cs_join_mesh.h:84-87 | the rank of a vertex orders vertices by global number, then by local id, and tells distinct vertices apart |
| JoinEdges.MaxGnum | include/base/cs_join_mesh.h:84-87 | no vertex has a global number above the maximum |
| JoinEdges.RankBound | include/base/cs_join_mesh.h:84-87 | every vertex rank lies below the bound used to build the couple key |
| JoinEdges.EdgeKeyOrder | include/base/cs_join_mesh.h:84-87 | the sort key orders couples by their first vertex in the global numbering, then by their second, and equal keys mean equal couples |
| JoinEdges.Bucket | include/base/cs_join_mesh.h:95-109 | the slice of V1 holds exactly the edges whose first vertex is V1, with their numbers |
| JoinEdges.DefineEdges | include/base/cs_join_mesh.h:402-413 | define_edges defines the edges of the faces over the vertices whose global numbers are given |
| JoinEdges.EdgeDefsInRange | include/base/cs_join_mesh.h:84-87 | each edge joins two vertices of the mesh and is oriented from the one that comes first in the global numbering |
| JoinEdges.EdgeDefsDistinct | include/base/cs_join_mesh.h:402-413 | no edge is defined twice and none is a loop |
| JoinEdges.BuildEdgesIndex | include/base/cs_join_mesh.h:95-109 | the index on first vertices is the packing of the slices |
| JoinEdges.BucketsEntry | include/base/cs_join_mesh.h:95-109 | entry k of the packed slices within the slice of v belongs to the bucket of v |
| JoinEdges.BuildEdgesSlice | include/base/cs_join_mesh.h:95-109 | each slice names edges from its vertex |
| JoinEdges.BucketsListed | include/base/cs_join_mesh.h:95-109 | each bucket entry sits in the slice of its vertex |
| JoinEdges.BuildEdgesListed | include/base/cs_join_mesh.h:95-109 | each edge is listed in the slice of its first vertex |
| JoinEdges.BuildEdgesValid | include/base/cs_join_mesh.h:84-111 | couples of distinct vertices, none repeated in either orientation, give a valid edge structure |
| JoinEdges.DefineEdgesValid | include/base/cs_join_mesh.h:402-413 | the edges of a well-formed connectivity form a valid edge structure |
| JoinEdges.DefineEdgesCovers | include/base/cs_join_mesh.h:402-433 | every couple of distinct consecutive vertices of a face is an edge in one orientation, so get_edge is defined on it |
| JoinEdges.PairInAllPairs | include/base/cs_join_mesh.h:402-413 | every couple of consecutive vertices of a face is among the couples of all faces |
| JoinEdges.PairOrigin | include/base/cs_join_mesh.h:402-413 | every couple among those of all faces joins two consecutive vertices of some face |
| JoinEdges.PairInRange | include/base/cs_join_mesh.h:402-413 | on faces over n vertices every face couple joins two vertices below n |
| JoinEdges.CanonInEdgeDefs | include/base/cs_join_mesh.h:402-413 | a couple of distinct face vertices is defined as an edge, oriented from the vertex that comes first in the global numbering |
| JoinEdges.CandidatesInRange | include/base/cs_join_mesh.h:84-87 | every candidate edge joins two vertices of the mesh, the one that comes first in the global numbering first |
| JoinEdges.DefineEdgesSound | include/base/cs_join_mesh.h:402-413 | every edge joins two consecutive vertices of some face |
| JoinEdges.DefineEdgesOrdered | include/base/cs_join_mesh.h:84-87 | edges are numbered in the order of their couples in the global numbering: by first vertex, then by second vertex |
| JoinEdges.DefineEdgesGnumOrder | include/base/cs_join_mesh.h:84-87 | when no two vertices share a global number, each edge goes from its smaller global number to its larger one and edges are numbered in the lexicographic order of their couples of global numbers |
| JoinEdges.DefineEdgesScenario | include/base/cs_join_mesh.h:84-87 | over vertices of global numbers 20, 10, 30 the triangle [0, 1, 2] has edges (1, 0), (1, 2), (0, 2), and get_edge(0, 1) is -1 |
| JoinRenumber.Used | include/base/cs_join_mesh.h:379-388 | the ids below n occurring in the list, increasing |
| JoinRenumber.UsedAll | include/base/cs_join_mesh.h:379-388 | when every id occurs all are used |
| JoinRenumber.Restrict | include/base/cs_join_mesh.h:221-241 | restricting to the used vertices keeps the length of the list |
| JoinRenumber.RestrictFacts | include/base/cs_join_mesh.h:221-241 | every entry designates the same vertex record as before, every kept vertex is used, there are no more vertices than before, and kept vertex v is the v-th used vertex, so the kept vertices keep their relative order |
| JoinRenumber.UsedBounded | include/base/cs_join_mesh.h:379-388 | at most n ids below n are used |
| JoinRenumber.Kept | include/base/cs_join_mesh.h:379-388 | the kept vertices are used vertices |
| JoinRenumber.KeptHasKey | include/base/cs_join_mesh.h:379-388 | every used vertex has its global number among the kept ones |
| JoinRenumber.NewId | include/base/cs_join_mesh.h:379-388 | the new id of a vertex designates a kept vertex with the same global number |
| JoinRenumber.VertexClean | include/base/cs_join_mesh.h:379-388 | vertex_clean keeps the length of the connectivity |
| JoinRenumber.VertexCleanFacts | include/base/cs_join_mesh.h:379-388 | after vertex_clean no two vertices share a global number, every vertex is used, and every entry still designates the same global number |
| JoinRenumber.VertexCleanIncreasing | include/base/cs_join_mesh.h:379-388 | the vertices kept by vertex_clean are in strictly increasing global number |
| JoinRenumber.VertexCleanAllUsed | include/base/cs_join_mesh.h:379-388 | every vertex kept by vertex_clean is used by the renumbered list |
| JoinRenumber.VertexCleanKeepsFirst | include/base/cs_join_mesh.h:379-388 | the vertex kept for a global number is the first used one carrying it |
| JoinRenumber.KeptOfClean | include/base/cs_join_mesh.h:379-388 | on a clean mesh every vertex is kept |
| JoinRenumber.NewIdOfClean | include/base/cs_join_mesh.h:379-388 | on a clean mesh every vertex keeps its id |
| JoinRenumber.VertexCleanIdempotent | include/base/cs_join_mesh.h:379-388 | cleaning twice is cleaning once |
| JoinUpdate.Reverse | include/base/cs_join_mesh.h:435-455 | the list in reverse order |
| JoinUpdate.Oriented | include/base/cs_join_mesh.h:435-455 | the new vertices of an edge in the orientation of the traversal |
| JoinUpdate.EdgeVertices | include/base/cs_join_mesh.h:435-455 | the new vertices of an edge are taken from edge_new_vtx_lst |
| JoinUpdate.Insertions | include/base/cs_join_mesh.h:435-455 | the inserted vertices are vertices of the list, avoid the next face vertex, do not start with the vertex just placed and never repeat in a row |
| JoinUpdate.InsertionsKeepAll | include/base/cs_join_mesh.h:435-455 | a list with no entry equal to the next face vertex, none equal to its predecessor and a first entry other than the vertex just placed is inserted whole |
| JoinUpdate.InsertionsComplete | include/base/cs_join_mesh.h:435-455 | every listed vertex other than the next face vertex and the vertex just placed is inserted |
| JoinUpdate.InsertionsInOrder | include/base/cs_join_mesh.h:435-455 | the inserted vertices are a subsequence of the list: they keep the order of the list |
| JoinUpdate.SegmentOf | include/base/cs_join_mesh.h:435-455 | a segment starts with the renumbered face vertex; every later entry is a new vertex of the edge and differs from the next face vertex |
| JoinUpdate.SegmentOfPlaces | include/base/cs_join_mesh.h:435-455 | after the face vertex, a segment holds the listed vertices in their order, every one of them except the next face vertex, and the whole list when it is placeable |
| JoinUpdate.SegmentOfNoRepeat | include/base/cs_join_mesh.h:435-455 | within a segment no vertex follows its duplicate, and it does not end with the next face vertex |
| JoinUpdate.Segment | include/base/cs_join_mesh.h:435-455 | the contribution of one face position starts with the new id of its vertex; every later entry is a new vertex from edge_new_vtx_lst, other than the new id of the next face vertex |
| JoinUpdate.SegmentPlaces | include/base/cs_join_mesh.h:435-455 | the new vertices of the edge from position j, in traversal orientation, appear in the segment of j in their order, all of them but the new id of the next face vertex; when placeable, the segment is the new id of f[j] followed by all of them |
| JoinUpdate.UpdatedFaceHasEdgeVertices | include/base/cs_join_mesh.h:435-455 | every new vertex of every edge the face traverses is a vertex of the updated face |
| JoinUpdate.UpdatedFaceExact | include/base/cs_join_mesh.h:435-455 | when the new vertices of every traversed edge are placeable, the updated face is, position by position, the new id of the face vertex followed by all the new vertices of the edge to the next one |
| JoinUpdate.UpdatedFaceBelow | include/base/cs_join_mesh.h:435-455 | every vertex of an updated face is below n_new_vertices |
| JoinUpdate.SegmentNoRepeat | include/base/cs_join_mesh.h:435-455 | no segment repeats a vertex in a row or ends with the start of the next |
| JoinUpdate.UpdatedFaceNoInsert | include/base/cs_join_mesh.h:435-455 | with no new vertex the update only renumbers through old2new |
| JoinUpdate.SegmentsSingletons | include/base/cs_join_mesh.h:435-455 | singleton segments flatten to their entries |
| JoinUpdate.UpdateScenario | include/base/cs_join_mesh.h:435-455 | face [a, b, c] with one new vertex x on edge (a, b) becomes [a, x, b, c] |
| JoinUpdate.SegmentWith | include/base/cs_join_mesh.h:435-455 | the segment of position j of a face is built from the face vertex there, the next one and the new vertices of their edge |
| JoinUpdate.ScenarioFlatten | include/base/cs_join_mesh.h:435-455 | the segments [a, x], [b], [c] flatten to [a, x, b, c] |
| JoinUpdate.FlattenThree | include/base/cs_join_mesh.h:115-133 | three rows flatten to their concatenation |
| JoinUpdate.PlaceEdgeVertices | include/base/cs_join_mesh.h:435-455 | the loop placing the new vertices of one edge yields its segment |
| JoinUpdate.SegmentAt | include/base/cs_join_mesh.h:415-455 | the segment of one position, with the edge found by GetEdge |
| JoinUpdate.UpdateFace | include/base/cs_join_mesh.h:435-455 | the loop over the positions of a face yields the updated face |
| JoinMesh.VertexCleanBelow | include/base/cs_join_mesh.h:379-388 | after vertex_clean the connectivity refers to kept vertices only |
| JoinMesh.SubsetFacts | include/base/cs_join_mesh.h:221-241 | the subset connectivity is well formed, uses each of its vertices, and its row i has the vertex records of row selection[i] |
| JoinMesh.SubsetOf | include/base/cs_join_mesh.h:221-241 | the subset connectivity built on values: the selected global numbers, a valid index, only used vertices, no more vertices than the parent, row i with the vertex records of row selection[i] |
| JoinMesh.RowEntryOf | include/base/cs_join_mesh.h:115-133 | entry k of row i is entry idx[i]+k of the flat list |
| JoinMesh.RowCorrespond | include/base/cs_join_mesh.h:221-241 | a row copied and renumbered with the same vertex records designates the same records |
| JoinMesh.SubsetBelow | include/base/cs_join_mesh.h:221-241 | the selected rows use only vertices of the parent |
| JoinMesh.SubsetRowVertices | include/base/cs_join_mesh.h:221-241 | row i of the subset has the records of parent row selection[i] |
| JoinMesh.PackFaces | include/base/cs_join_mesh.h:115-133 | packing the vertex lists of faces gives back those faces, and the flat list holds exactly their vertices |
| JoinMesh.FacesPacked | include/base/cs_join_mesh.h:115-133 | the packed form of a list of faces is a valid connectivity whose faces are the given ones |
| JoinMesh.Mesh.FacesBelowOf | include/base/cs_join_mesh.h:115-133 | the faces refer to vertex ids below n_vertices |
| JoinMesh.Mesh.constructor | include/base/cs_join_mesh.h:183-194 | create: an empty, well-formed mesh with the given name |
| JoinMesh.Mesh.Reset | include/base/cs_join_mesh.h:287-295 | reset: an empty, well-formed mesh that keeps its name |
| JoinMesh.Mesh.Copy | include/base/cs_join_mesh.h:297-307 | copy: a missing mesh is created with the name of the reference; every face and vertex field equals the reference's |
| JoinMesh.Mesh.FromSubset | include/base/cs_join_mesh.h:221-241 | with an ordered selection: subset_size faces, face i being parent face selection[i] with its global number and vertex records; only used vertices kept |
| JoinMesh.Mesh.SetFaces | include/base/cs_join_mesh.h:115-133 | the connectivity is rebuilt from the given faces; the vertices are unchanged |
| JoinMesh.Mesh.BelowOfFaces | include/base/cs_join_mesh.h:115-133 | faces over known vertices give a valid connectivity |
| JoinMesh.Mesh.FaceOrder | include/base/cs_join_mesh.h:356-366 | face_order rewrites the faces into JoinFaces.FaceOrder of the old faces and keeps the mesh valid |
| JoinMesh.Mesh.SyncVertices | include/base/cs_join_mesh.h:368-377 | sync_vertices: each vertex takes the least tolerance of the copies of its number; only tolerances change |
| JoinMesh.Mesh.VertexClean | include/base/cs_join_mesh.h:379-388 | vertex_clean rewrites the flat list and the vertices into JoinRenumber.VertexClean of the old ones and keeps the mesh valid |
| JoinMesh.Mesh.Clean | include/base/cs_join_mesh.h:390-400 | clean: every face is collapsed and afterwards no face has a degenerate edge |
| JoinMesh.Mesh.DefineEdges | include/base/cs_join_mesh.h:402-413 | define_edges on a well-formed mesh: a valid edge structure of the edges of its faces, ordered in the global numbering of its vertices |
| JoinMesh.Mesh.RowsBelow | include/base/cs_join_mesh.h:115-133 | the rows refer to vertex ids below n_vertices |
| JoinMesh.Mesh.EdgesCoverFaces | include/base/cs_join_mesh.h:402-433 | every couple of distinct consecutive vertices of a face is an edge of DefineEdges |
| JoinMesh.Mesh.CleanFacesOnEdges | include/base/cs_join_mesh.h:390-413 | after clean every face traverses edges of DefineEdges only, as update requires |
| JoinMesh.Mesh.Update | include/base/cs_join_mesh.h:435-455 | update: face i becomes the updated face of old face i with its global number (renumbered, each traversed edge contributing its new vertices in order, as JoinUpdate.SegmentPlaces and JoinUpdate.UpdatedFaceExact prove); n_vertices becomes n_new_vertices and the connectivity refers only to ids below it; the vertex array is unchanged |
| JoinMesh.UpdateFaces | include/base/cs_join_mesh.h:435-455 | the loop over the faces applies the face update to each |
| JoinMesh.CollapsedFaces | include/base/cs_join_mesh.h:390-400 | collapsed faces use no new vertex and have no degenerate edge |
| JoinMesh.UpdatedFaces | include/base/cs_join_mesh.h:435-455 | updated faces use new vertex ids only |
| CdoDomain.CdoContext.constructor | src/cdo/cs_domain.c:135-153 | a CDO context with the given mode and no scheme flag set |
| CdoDomain.Domain.constructor | src/cdo/cs_domain.c:171-243 | a steady computation before its start, the constant-time-step options, restart_nt 0, output_nt -1, verbosity 1, CDO mode off, and a new CDO context with no scheme flag set |
| CdoDomain.Domain.SetCdoMode | src/cdo/cs_domain.c:297-311 | reading the mode back gives the mode set; a missing context is created by _create_cdo_context with all six scheme flags 0, an existing one keeps its six flags; nothing else changes |
| CdoDomain.Domain.GetCdoMode | src/cdo/cs_domain.c:323-331 | off for a missing domain or context, the context's mode otherwise |
| CdoDomain.Domain.SetStage | src/cdo/cs_domain.c:343-350 | reading the stage back gives the stage set; nothing else changes |
| CdoDomain.Domain.GetStage | src/cdo/cs_domain.c:362-371 | the current stage of the run, which SetStage sets |
| CdoDomain.Domain.NeedsIteration | src/cdo/cs_domain.c:384-410 | false for a steady run, once nt_max or t_max is reached, or with neither set; true in every other case |
| CdoDomain.Domain.NeedsLog | src/cdo/cs_domain.c:424-454 | false for a negative verbosity; otherwise true for a steady run, at the first two steps and every output_nt steps from nt_prev, at the last iteration; false in every other case |
| ParamSles.SolverFamilies | src/alge/cs_param_sles.c:85-121 | _mumps_is_needed holds exactly for the four MUMPS variants and _system_should_be_sym exactly for CG, FCG, GKB_CG, GKB_GMRES, MINRES and the two LDLT variants |
| ParamSles.CheckClass | src/alge/cs_param_sles.c:1977-2027 | CS gives CS and an unknown class gives none; a class the build provides is returned; otherwise only PETSc may stand in for HYPRE or MUMPS |
| ParamSles.CheckClassIdempotent | src/alge/cs_param_sles.c:1977-2027 | checking the class obtained gives it back |
| ParamSles.CheckedErrors | src/alge/cs_param_sles.c:1240-1280 | each validation error occurs exactly in its own case, with the MUMPS checks first |
| ParamSles.CheckedConsistent | src/alge/cs_param_sles.c:1240-1280 | accepted settings differ only in their class, which a MUMPS solver gets from a library of the build and another solver never has as MUMPS |
| ParamSles.CheckedIdempotent | src/alge/cs_param_sles.c:1240-1280 | checking accepted settings again changes nothing |
| ParamSles.PolyDegreeValues | src/alge/cs_param_sles.c:1308-1353 | the polynomial degree is 0, 1, 2 exactly for DIAG, POLY1, POLY2 and -1 otherwise |
| ParamSles.HouseKUpgrade | src/alge/cs_param_sles.c:1325-1333 | CG is the only solver upgraded, into FCG, and only under a K-cycle AMG preconditioner |
| ParamSles.SaturneDefinitionFacts | src/alge/cs_param_sles.c:1294-1574 | the iterative solver gets the degree of the preconditioner (-1 for the smoothers), the iteration limit, and a multigrid preconditioner exactly when AMG is asked for |
| ParamSles.SaturneDefinitionErrors | src/alge/cs_param_sles.c:1294-1574 | the definition fails exactly for an AMG type other than HOUSE_V/HOUSE_K where one is needed, a solver outside the family, or an AMG solver under an AMG preconditioner |
| ParamSles.SaturneDefinitionStable | src/alge/cs_param_sles.c:1294-1353 | defining again from the upgraded settings gives the same solver |
| ParamSles.SetReturnCodes | src/alge/cs_param_sles.c:1915-1963 | the return code is 0 or -1, and -1 exactly for accepted settings of unknown class; through _set_petsc_hypre_sles, PETSc and HYPRE classes fail exactly on a build without PETSc, or with a block AMG that is neither GAMG nor BoomerAMG |
| ParamSles.MumpsClassLinked | src/alge/cs_param_sles.c:1600-1621 | after the check the MUMPS class implies a build with MUMPS, so _set_mumps_sles does not fail |
| ParamSles.SetPetscHypre | src/alge/cs_param_sles.c:1636-1710 | the errors of _set_petsc_hypre_sles: no PETSc in the build, or a block AMG preconditioner with an AMG that is neither GAMG nor BoomerAMG; otherwise 0 |
| ParamSles.DefaultsAccepted | src/alge/cs_param_sles.c:1730-1766 | the default settings pass the check and define a GMRES with a diagonal preconditioner, and setting them returns 0 |
| ParamSles.Params.Create | src/alge/cs_param_sles.c:1730-1766 | verbosity 0, class CS, DIAG, GMRES, no AMG, no block, restart 15, 10000 iterations, eps 1e-8, no residual normalisation, not set up, name copied or absent |
| ParamSles.Params.CopyFrom | src/alge/cs_param_sles.c:1879-1901 | nothing without a destination; otherwise every setting of the source except the restart, with the name and restart kept |
| ParamSles.Params.SetValues | src/alge/cs_param_sles.c:1879-1901 | every setting is the one given; the name is kept |
| ParamSles.Params.CheckSettings | src/alge/cs_param_sles.c:1240-1280 | the validation error, if any; the class is updated for a MUMPS solver and nothing else changes |
| ParamSles.Params.SetSaturneSles | src/alge/cs_param_sles.c:1294-1574 | the solver defined or the error; CG becomes FCG under a K-cycle AMG preconditioner and nothing else changes |
| ParamSles.Params.Set | src/alge/cs_param_sles.c:1915-1963 | 0 without a record; otherwise the outcome of the check and of the definition by class, the library setters failing when the build lacks their library, and -1 for an unknown class |
| IterAlgo.ResetState | src/cdo/cs_iter_algo.h:189-202 | after a reset the status is ITERATING, the three residuals are the big value and the three counters are 0; verbosity, settings, context, normalization and tol are kept |
| IterAlgo.ResetIdempotent | src/cdo/cs_iter_algo.h:189-202 | resetting twice is resetting once |
| IterAlgo.ResetFixpoint | src/cdo/cs_iter_algo.h:189-202 | a reset leaves a state unchanged exactly when it is already reset |
| IterAlgo.ResetForgetsHistory | src/cdo/cs_iter_algo.h:115-131 | two records with the same settings are equal once reset |
| IterAlgo.IterAlgo.constructor | src/cdo/cs_iter_algo.h:115-131 | a record with the given settings, in the reset state |
| IterAlgo.IterAlgo.Reset | src/cdo/cs_iter_algo.h:189-202 | nothing without a record; otherwise the record becomes ResetState of its old value |

## Left out

- MPI communication of the join mesh is not modelled because it is collective communication: `cs_join_mesh_create_vtx_datatype`, `cs_join_mesh_exchange` and `cs_join_mesh_create_from_glob_sel`. The remote vertex copies for `sync_vertices` are a parameter, and the reductions are modelled by their combinators and a fold.
- `cs_join_mesh_create_from_extract`, `cs_join_mesh_destroy`, `cs_join_mesh_destroy_edges` and `cs_join_mesh_get_edge_face_adj` are left out because the header gives no behaviour to state beyond allocation.
- `cs_join_mesh_get_face_normal` and `cs_join_mesh_minmax_tol` are left out because they are floating-point geometry and a reduction with display.
- The `dump_*` routines and the report printed by `clean` are left out because they are I/O.
- The global counts (`n_g_faces`, `n_g_vertices`, `n_g_edges`) are set to the local counts at creation and left unchanged by the local operations, because their aggregation is collective.
- JoinMesh.Mesh.Update: the vertex array is not rewritten, because the header does not give the data of the new vertices. The face ids are renumbered and `n_vertices` is set to the new count. Afterwards only JoinMesh.Mesh.ConnectivityValid holds: JoinMesh.Mesh.Valid, which also asks for one vertex record per id, is not re-established until a vertex array of `n_new_vertices` records is installed, and the operations that require it (VertexClean, DefineEdges on the mesh and the others) need that array first.
- JoinMesh.Mesh.Update requires every couple of consecutive face vertices to be an edge. Without it `get_edge` has no defined result. JoinMesh.Mesh.CleanFacesOnEdges proves the requirement for a cleaned mesh and its own edges.
- JoinMesh.Mesh.VertexClean and JoinMesh.Mesh.FaceOrder tie the new state to a pure function. The properties of that function are lemmas: JoinRenumber.VertexCleanFacts and JoinFaces.FaceOrderFacts.
- JoinEdges.Canon: for two vertices sharing a global number the header fixes no order; the model orders them by local id.
- JoinVertex.VertexMin and JoinVertex.VertexMax: on equal tolerances the header leaves open which vertex is kept; the model keeps the in/out vertex.
- JoinUpdate.Insertions: a new vertex equal to the vertex just placed or to the next face vertex is not inserted, so that no vertex follows its duplicate in the updated face; the header does not say how `update` treats such a vertex, and this is a choice of the model.
- An empty connectivity index is `[0]`, one entry for zero faces, as a CSR index of zero rows.
- The join header numbers vertices from 1 in its connectivity lists. The model uses 0-based ids everywhere and 1-based numbers only for the signed edge numbers.
- The `bft_error` on a NULL domain in `cs_domain_set_cdo_mode`, `cs_domain_set_stage` and `cs_domain_get_stage` (`src/cdo/cs_domain.c:300-302,346-348,365-367`) is not modelled: the methods are called on an existing Domain object, which cannot be NULL.
- `cs_domain_increment_time` is left out because it is Kahan floating-point summation over hidden static state.
- CdoDomain.Domain.NeedsIteration takes as a parameter the `nt_max` that `cs_coupling_sync_apps` returns, and does not write it back, because the coupling call is a foreign call.
- `cs_domain_free`, the domain's mesh, boundaries, properties and timers, the stage enum's definition and `cs_f_set_cdo_mode` are left out. They are allocation or definitions in files that are not part of this model; `cs_domain.h` is not part of this model.
- The domain counters are unbounded integers, so the 32-bit overflow of `nt_cur + 1` is not modelled.
- The library calls of the PETSc, HYPRE and MUMPS setup of `cs_param_sles_set` (`cs_sles_mumps_define`, `cs_sles_petsc_init`, `cs_sles_petsc_define` and the `_petsc_*` hooks) are left out because they call libraries that are not modelled. The branches keep their stops: `_set_mumps_sles` fails on a build without MUMPS, `_set_petsc_hypre_sles` fails on a build without PETSc and for a block AMG preconditioner whose AMG is neither GAMG nor BoomerAMG. Otherwise they succeed with 0. The warning and the switch to GAMG when PETSc lacks HYPRE are not recorded.
- The `cs_multigrid` and `cs_sles_it` calls of `_set_saturne_sles` are left out. ParamSles.SaturneDefinition records which solver kind, polynomial degree, iteration limit and multigrid cycle they receive. The smoother options, the coarsening options, the plot option and the verbosity setting are not recorded.
- `cs_param_sles_log`, the name buffer's storage and `cs_param_sles_free` are left out because they are logging and memory management.
- The `use_field_id` argument only chooses the key under which the solver is registered, so it is left out.
- The assertion `field_id > -1 || name != NULL` of `_set_saturne_sles` is not modelled.
- The assertion that an AMG preconditioner has an iterative solver to attach to is modelled as the outcome `PrecondWithoutIterative`.
- The `#if HAVE_PETSC`, `PETSC_HAVE_HYPRE`, `HAVE_MUMPS` and `PETSC_HAVE_MUMPS` branches of `cs_param_sles_check_class` are a `Build` parameter.
- The enumerations of `cs_param_types.h` and `cs_sles.h` are not part of this model. The datatypes hold the values that `cs_param_sles.c` names, plus the convergence states of `cs_sles_convergence_state_t`.
- `cs_iter_algo.c` is not part of this model. Only `cs_iter_algo_reset`, whose body `src/cdo/cs_iter_algo.h:189-202` gives inline, is modelled; `cs_iter_algo_create` and the Anderson acceleration functions are defined in `cs_iter_algo.c` and are left out. The constructor of IterAlgo.IterAlgo takes every kept field as an argument.
- `cs_math_big_r` is defined in `cs_math.c`, which is not part of this model. The model uses its value 1e12.
- Reals are Dafny's exact reals, not IEEE doubles.
