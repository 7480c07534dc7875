# CSG boolean geometry: the discrete core of `Shapes.cpp`

This project models the index-buffer and point-list logic of the `Shapes`
module of CSGBooleanGeometry and proves properties of it. That module builds
triangle meshes (box, sphere, cylinder) and tests two convex meshes against
each other: it decides overlap with a separating-axis test, and it assembles
the polygon faces where mesh A cuts mesh B.

Positions are exact-real three-vectors (`Geometry.Vec3`). A model matrix is
modelled by its first three rows (`Geometry.Transform`), since the source only
ever keeps `vec3(M * vec4(p, 1))`. `glm::normalize` and `std::atan2` need
square roots and trigonometry, so each is a function parameter
(`normalize`, `atan2`) that every contract holds for all choices of.
Möller–Trumbore and the barycentric test are stated as exact-real formulas
over the same branches and constants as the source.

The modules follow the groups of the source file:

- `Canonicalise`: position deduplication and re-indexing, both the local and the world-space variant.
- `Adjacency`: the one-ring query.
- `Triangulation`: the fan triangulation.
- `Dedup`: the greedy tolerance deduplication loops.
- `Containment`: the convex containment test and the two filters built on it.
- `Collector` and `Primitives`: segment/triangle intersection and the two-hit collector.
- `Sat`: face normals, the projection fold and the separating-axis decision.
- `Box`, `Sphere` and `Cylinder`: the shape builders, which use the well-placed-triangle predicates of `Builders`.
- `Faces`: the centroid, the angle sort and `GeneratePolygonIntersectionFaces`.
- `Geometry`, `Sequences` and `Algebra`: vectors, meshes, sequence facts and the linear algebra the proofs use.

Every loop of the modelled functions is a `method` with a `while` loop. Each method
ensures that its result, or its new state, is a function of its inputs, and
the lemmas beside it prove what the source promises about that function.

## Model

| member | source | states |
|---|---|---|
| Canonicalise.ExtractUniquePositionsAndIndices | CSGBooleanGeometry/CSGBooleanGeometry/Sources/Shapes.cpp:42-65 | The outputs are the canonical form of the mesh. There is one id per index slot. Each id is below the number of output positions and names exactly the position of its slot's vertex. The output positions are duplicate-free and no more numerous than the vertices. |
| Canonicalise.CanonicalPositionsFacts | CSGBooleanGeometry/CSGBooleanGeometry/Sources/Shapes.cpp:42-65 | The canonical positions hold no duplicate. A position is among them exactly when some index slot refers to it. There are at most as many as vertices. |
| Canonicalise.UniqFirstOccurrenceOrder | CSGBooleanGeometry/CSGBooleanGeometry/Sources/Shapes.cpp:54-60 | Canonical positions appear in order of their first occurrence in the index buffer. |
| Canonicalise.CanonicalisationIsIdempotent | CSGBooleanGeometry/CSGBooleanGeometry/Sources/Shapes.cpp:42-65 | Canonicalising an already canonical mesh returns the same positions and ids. |
| Canonicalise.ScanValid | CSGBooleanGeometry/CSGBooleanGeometry/Sources/Shapes.cpp:73-89 | Whatever positions a pass stores, it emits one id per slot, and every id is below the number of stored positions. |
| Canonicalise.ExtractUniquePositionsAndIndicesWorld | CSGBooleanGeometry/CSGBooleanGeometry/Sources/Shapes.cpp:67-91 | As written: the map is searched with the local position, but the transformed position is stored. The result is still a valid index buffer of the right length. |
| Canonicalise.WorldLookupUsesLocalKey | CSGBooleanGeometry/CSGBooleanGeometry/Sources/Shapes.cpp:81-86 | Counterexample: after a unit translation, two distinct vertices get the same id and one world position is lost. |
| Canonicalise.ExtractUniqueWorldPositionsAndIndices | CSGBooleanGeometry/CSGBooleanGeometry/Sources/Shapes.cpp:67-91 | Corrected world variant: the canonical form of the transformed positions. Each id names the world position of its slot, and the positions are duplicate-free. |
| Canonicalise.WorldAsWrittenAgreesWhenFixed | CSGBooleanGeometry/CSGBooleanGeometry/Sources/Shapes.cpp:67-91 | When the transform fixes every referenced position, the as-written pass and the corrected one produce the same outputs. |
| Adjacency.GetConnectedVertices | CSGBooleanGeometry/CSGBooleanGeometry/Sources/Shapes.cpp:443-460 | The result has no duplicate and never holds `vertexIndex`. It holds x exactly when x and `vertexIndex` are distinct corners of one triangle. It is empty if no triangle has the vertex. |
| Adjacency.RingUpToMembers | CSGBooleanGeometry/CSGBooleanGeometry/Sources/Shapes.cpp:447-457 | After n triangles, the set holds exactly the vertices that share one of those triangles with `vertexIndex`. |
| Triangulation.TriangulateConvexPolygon | CSGBooleanGeometry/CSGBooleanGeometry/Sources/Shapes.cpp:796-823 | Fewer than three points give no index. Otherwise the result is the fan (0, i, i+1) for i = 1 .. n-2, or (0, i+1, i) throughout when the orientation test is negative. Every index is below n. |
| Triangulation.FanProperties | CSGBooleanGeometry/CSGBooleanGeometry/Sources/Shapes.cpp:809-821 | Each fan triangle starts at 0, names points of the polygon, and has three different corners. The two orientations differ exactly by swapping the last two corners. |
| Dedup.AddUnique | CSGBooleanGeometry/CSGBooleanGeometry/Sources/Shapes.cpp:689-699 | The inner scan, which breaks at the first near kept point, keeps the point exactly when no kept point is near it. |
| Dedup.DeduplicatePoints | CSGBooleanGeometry/CSGBooleanGeometry/Sources/Shapes.cpp:587-600 | The deduplication loop computes the greedy scan of its input. |
| Dedup.GreedyDedupIsSubsequence | CSGBooleanGeometry/CSGBooleanGeometry/Sources/Shapes.cpp:687-700 | The kept points are an order-preserving subsequence of the input. |
| Dedup.GreedyDedupKeepsFirst | CSGBooleanGeometry/CSGBooleanGeometry/Sources/Shapes.cpp:687-700 | A non-empty input keeps its first point, as the first kept point. |
| Dedup.GreedyDedupSeparated | CSGBooleanGeometry/CSGBooleanGeometry/Sources/Shapes.cpp:710-724 | For a symmetric `near`, no two kept points are near each other. |
| Dedup.GreedyDedupCovers | CSGBooleanGeometry/CSGBooleanGeometry/Sources/Shapes.cpp:687-700 | For a reflexive `near`, every input point is near some kept point. |
| Dedup.NearIsReflexiveAndSymmetric | CSGBooleanGeometry/CSGBooleanGeometry/Sources/Shapes.cpp:692 | The source's test `length(a - b) < 0.001` is reflexive and symmetric. |
| Dedup.JitteredDuplicateCollapses | CSGBooleanGeometry/CSGBooleanGeometry/Sources/Shapes.cpp:645 | A point and a copy moved by 1e-4, which is below the tolerance, deduplicate to the first. |
| Containment.IsPointInsideConvexMesh | CSGBooleanGeometry/CSGBooleanGeometry/Sources/Shapes.cpp:413-441 | True exactly when the point has non-positive signed distance to every face plane. False exactly when some triangle has it strictly outside. |
| Containment.PassingIdsExactly | CSGBooleanGeometry/CSGBooleanGeometry/Sources/Shapes.cpp:474-478 | The filter lists, strictly ascending, exactly the ids whose point passes the containment test. |
| Containment.GetVertexesWithinMesh | CSGBooleanGeometry/CSGBooleanGeometry/Sources/Shapes.cpp:462-503 | Returns the ascending ids of A's canonical positions that, carried by `modelMatrixA`, lie inside B's canonical local mesh. |
| Containment.GetVertexesWithinMesh2 | CSGBooleanGeometry/CSGBooleanGeometry/Sources/Shapes.cpp:505-519 | Returns, in input order, exactly the positions of A that pass the containment test against B. Every returned position is inside B. |
| Collector.CollectFirstTwoHits | CSGBooleanGeometry/CSGBooleanGeometry/Sources/Shapes.cpp:615-632 | The scan that stops at the second hit returns the first two hits, in triangle order, of the segment against all triangles. |
| Collector.SegmentHitsPrefix | CSGBooleanGeometry/CSGBooleanGeometry/Sources/Shapes.cpp:615-632 | Hits only accumulate: the hits against fewer triangles are a prefix of those against more. |
| Primitives.GetEdgeIntersection | CSGBooleanGeometry/CSGBooleanGeometry/Sources/Shapes.cpp:610-635 | At most the first two hits of segment v0 -> v1 with the mesh's triangles, carried by the model matrix, in triangle order. |
| Primitives.SegmentHitsAreCrossings | CSGBooleanGeometry/CSGBooleanGeometry/Sources/Shapes.cpp:615-632 | Every collected hit lies on the segment and on one of the triangles. |
| Primitives.AcceptCrossing | CSGBooleanGeometry/CSGBooleanGeometry/Sources/Shapes.cpp:747-765 | A crossing is reported exactly when u >= 0, v >= 0, u + v <= 1 and 0 <= t <= 1. The reported point is p0 + t (p1 - p0). |
| Primitives.IntersectionIsOnSegmentAndTriangle | CSGBooleanGeometry/CSGBooleanGeometry/Sources/Shapes.cpp:732-766 | A reported point lies both on the segment and on the triangle. The segment is not parallel to the plane within float epsilon. |
| Primitives.CrossingIsReported | CSGBooleanGeometry/CSGBooleanGeometry/Sources/Shapes.cpp:732-766 | Conversely, a segment that is not near-parallel and meets the triangle is reported, at the meeting point. |
| Primitives.SegmentThroughTriangle | CSGBooleanGeometry/CSGBooleanGeometry/Sources/Shapes.cpp:732-766 | A vertical segment through (0.25, 0.25) hits the unit right triangle at (0.25, 0.25, 0). |
| Primitives.PlanePointInTriangle | CSGBooleanGeometry/CSGBooleanGeometry/Sources/Shapes.cpp:768-794 | For a point of a non-degenerate triangle's plane, the test accepts exactly when its barycentric coordinates lie in [-epsilon, 1 + epsilon]. |
| Primitives.CollinearTriangleRejects | CSGBooleanGeometry/CSGBooleanGeometry/Sources/Shapes.cpp:784-785 | A triangle with collinear corners is degenerate and accepts no point. |
| Sat.CalculateFaceNormals | CSGBooleanGeometry/CSGBooleanGeometry/Sources/Shapes.cpp:387-411 | One world-space normal per whole triangle, in triangle order. |
| Sat.FaceNormalIsOrthogonal | CSGBooleanGeometry/CSGBooleanGeometry/Sources/Shapes.cpp:403-405 | When `normalize` only rescales, each face normal is orthogonal to both edges of its face. |
| Sat.ProjectOntoAxis | CSGBooleanGeometry/CSGBooleanGeometry/Sources/Shapes.cpp:340-357 | min and max are the folds, starting at +inf and -inf, over the projections of the world-space vertices. |
| Sat.MinFoldIsMinimum | CSGBooleanGeometry/CSGBooleanGeometry/Sources/Shapes.cpp:347-356 | The fold stays +inf exactly for no vertex. Otherwise it is a projection, and no projection is below it. |
| Sat.MaxFoldIsMaximum | CSGBooleanGeometry/CSGBooleanGeometry/Sources/Shapes.cpp:347-356 | The fold stays -inf exactly for no vertex. Otherwise it is a projection, and no projection is above it. |
| Sat.MinNotAboveMax | CSGBooleanGeometry/CSGBooleanGeometry/Sources/Shapes.cpp:347-356 | For a non-empty vertex list, min and max are finite and min <= max. |
| Sat.AreMeshesIntersectingSAT | CSGBooleanGeometry/CSGBooleanGeometry/Sources/Shapes.cpp:359-385 | False exactly when some face normal of A or B has length >= 1e-6 and its projection intervals are disjoint. Short axes never separate. |
| Sat.NoAxisSeparates | CSGBooleanGeometry/CSGBooleanGeometry/Sources/Shapes.cpp:372-384 | The axis loop returns false exactly when some axis of length >= 1e-6 has disjoint projection intervals. It returns true when there is none, also for no axes. |
| Sat.SeparatingAxisSplitsVertices | CSGBooleanGeometry/CSGBooleanGeometry/Sources/Shapes.cpp:379-381 | On a separating axis every projection of A lies strictly below every projection of B, or every one lies strictly above. So no vertex of A projects where a vertex of B does, and no vertex of A coincides with one of B. |
| Sat.EmptyMeshIsSeparated | CSGBooleanGeometry/CSGBooleanGeometry/Sources/Shapes.cpp:347-348 | A mesh without vertices has the interval (+inf, -inf) and is separated by every axis that is not skipped. |
| Sat.SharedVertexMeansIntersecting | CSGBooleanGeometry/CSGBooleanGeometry/Sources/Shapes.cpp:372-384 | Meshes sharing a world-space vertex are never reported apart. |
| Box.CreateBox | CSGBooleanGeometry/CSGBooleanGeometry/Sources/Shapes.cpp:149-209 | The vertices are the four corners of each face of the table, with its normal and the colour. The indices are two triangles per face. |
| Box.BoxCounts | CSGBooleanGeometry/CSGBooleanGeometry/Sources/Shapes.cpp:177-186 | 24 vertices and 36 indices. Face f contributes [4f, 4f+1, 4f+2, 4f, 4f+2, 4f+3]. |
| Box.BoxTrianglesOnFaces | CSGBooleanGeometry/CSGBooleanGeometry/Sources/Shapes.cpp:149-209 | Every index names one of the vertices. Every triangle has three different corners sharing one face normal. |
| Box.BoxWindsOutward | CSGBooleanGeometry/CSGBooleanGeometry/Sources/Shapes.cpp:162-175 | For positive extents, both triangles of each face turn counter-clockwise seen from outside. |
| Cylinder.CreateCylinder | CSGBooleanGeometry/CSGBooleanGeometry/Sources/Shapes.cpp:211-299 | The vertices are the side pairs, the two cap centres and the cap pairs. The indices are the side quads and then the cap triangles. |
| Cylinder.CylinderCounts | CSGBooleanGeometry/CSGBooleanGeometry/Sources/Shapes.cpp:211-299 | 6 sectorCount + 4 vertices and 12 sectorCount indices. |
| Cylinder.SideVertexAt | CSGBooleanGeometry/CSGBooleanGeometry/Sources/Shapes.cpp:219-238 | Vertex 2i is the bottom and vertex 2i+1 the top side vertex of angle i. |
| Cylinder.CapVertexAt | CSGBooleanGeometry/CSGBooleanGeometry/Sources/Shapes.cpp:275-290 | The four cap vertices of sector i are the bottom rim at angles i+1 and i, then the top rim at angles i and i+1. |
| Cylinder.CylinderTrianglesOnSurfaces | CSGBooleanGeometry/CSGBooleanGeometry/Sources/Shapes.cpp:240-295 | Every index names a generated vertex. Every triangle has three different corners, all on the side, all on the bottom cap or all on the top cap. |
| Sphere.CreateSphere | CSGBooleanGeometry/CSGBooleanGeometry/Sources/Shapes.cpp:94-147 | The vertices are the grid, stack by stack. The indices are the cells, in the source's order, with the pole rows' degenerate triangles left out. |
| Sphere.SphereCounts | CSGBooleanGeometry/CSGBooleanGeometry/Sources/Shapes.cpp:94-147 | (stackCount + 1)(sectorCount + 1) vertices. No index when stackCount is 0, otherwise 6 sectorCount (stackCount - 1). |
| Sphere.SphereVertexAt | CSGBooleanGeometry/CSGBooleanGeometry/Sources/Shapes.cpp:98-124 | Vertex i (sectorCount + 1) + j is sector j of stack i. |
| Sphere.SphereTrianglesSound | CSGBooleanGeometry/CSGBooleanGeometry/Sources/Shapes.cpp:127-145 | Every index names a grid vertex. Every triangle has three different corners and no edge inside a pole row. |
| Faces.CalculateCentroid | CSGBooleanGeometry/CSGBooleanGeometry/Sources/Shapes.cpp:17-23 | The running sum divided by the count is the mean of the points. None for no points. |
| Faces.CentroidOfShifted | CSGBooleanGeometry/CSGBooleanGeometry/Sources/Shapes.cpp:17-23 | Moving every point by d moves the centroid by d. |
| Faces.AngleKeysIgnoreTranslation | CSGBooleanGeometry/CSGBooleanGeometry/Sources/Shapes.cpp:26-29 | The angle of each point about the centroid is unchanged when the whole point list is moved. |
| Faces.SortByKey | CSGBooleanGeometry/CSGBooleanGeometry/Sources/Shapes.cpp:36-38 | The result is sorted by the key and is a permutation of the input. |
| Faces.SortPointsByAngle | CSGBooleanGeometry/CSGBooleanGeometry/Sources/Shapes.cpp:32-39 | The result is a permutation of the points, in non-decreasing angle about the centroid of the input. |
| Faces.PermutationKeepsSize | CSGBooleanGeometry/CSGBooleanGeometry/Sources/Shapes.cpp:702-703 | The sorted list has exactly the size and the members of the deduplicated one. |
| Faces.WorldScan | CSGBooleanGeometry/CSGBooleanGeometry/Sources/Shapes.cpp:67-91 | The as-written world pass over a mesh: one id per index slot, each below the number of stored positions. |
| Canonicalise.ScanIdsPrefix | CSGBooleanGeometry/CSGBooleanGeometry/Sources/Shapes.cpp:73-90 | The ids a pass has pushed for the first m slots are never changed by later slots. |
| Faces.ShiftedCornerCollapses | CSGBooleanGeometry/CSGBooleanGeometry/Sources/Shapes.cpp:81-86 | When the model matrix maps the first corner of the first triangle onto the model-space position of the second, the as-written pass gives both corners id 0, so the triangle is degenerate. The intended pass gives them different ids whenever their world positions differ. |
| Faces.Prepare | CSGBooleanGeometry/CSGBooleanGeometry/Sources/Shapes.cpp:646-649 | The scene the source builds: each mesh through the as-written world pass (looked up by model-space position, stored as the transformed one), plus each one's points inside the other. Its index buffers are whole triangles over existing positions. |
| Faces.PrepareIntended | CSGBooleanGeometry/CSGBooleanGeometry/Sources/Shapes.cpp:646-649 | The same scene with the intended world canonicaliser: the canonical form of the transformed positions, as whole triangles over existing positions. |
| Faces.CollectEdgeHits | CSGBooleanGeometry/CSGBooleanGeometry/Sources/Shapes.cpp:662-673 | The loop over B's triangles pushes the hits of edges (v0,v1), (v0,v2) and (v1,v2), per triangle in that order. |
| Faces.EdgeHitsAreCrossings | CSGBooleanGeometry/CSGBooleanGeometry/Sources/Shapes.cpp:662-673 | Every edge hit lies on one of the three edges of the triangle of A and on some triangle of B. |
| Faces.InTriangleMembers | CSGBooleanGeometry/CSGBooleanGeometry/Sources/Shapes.cpp:675-685 | The contained-point loops keep exactly the points the in-triangle test accepts. |
| Faces.CandidateOrigins | CSGBooleanGeometry/CSGBooleanGeometry/Sources/Shapes.cpp:654-686 | Each candidate point of a face is an edge crossing with B, or a point of A inside B, or a point of B inside A, and the in-triangle test accepts the last two. |
| Faces.CollectCandidates | CSGBooleanGeometry/CSGBooleanGeometry/Sources/Shapes.cpp:660-686 | The points pushed for a triangle of A are its edge hits against B, then the points of A inside B that lie in the triangle, then those of B inside A. |
| Faces.AssembleFace | CSGBooleanGeometry/CSGBooleanGeometry/Sources/Shapes.cpp:655-704 | The face of a triangle of A has that triangle's normal. Its points are a permutation of the deduplicated candidates, sorted by angle. Its indices are their fan. |
| Faces.AssembleFaces | CSGBooleanGeometry/CSGBooleanGeometry/Sources/Shapes.cpp:654-708 | Faces appear in triangle order, one for exactly each triangle whose deduplicated candidate list is non-empty. |
| Faces.AddFace | CSGBooleanGeometry/CSGBooleanGeometry/Sources/Shapes.cpp:655-707 | One pass of the loop over A extends the faces of the triangles before t to those of the triangles up to t, adding a face exactly when it has a point. |
| Faces.DeduplicateFacePoints | CSGBooleanGeometry/CSGBooleanGeometry/Sources/Shapes.cpp:710-724 | The final loop is one greedy scan over the points of all faces, in order. |
| Faces.GeneratePolygonIntersectionFaces | CSGBooleanGeometry/CSGBooleanGeometry/Sources/Shapes.cpp:639-730 | Over the scene from the as-written world pass, the faces are those of the triangles of A with a point left, in triangle order. The printed points are the deduplicated face points. |
| Faces.GeneratePolygonIntersectionFacesIntended | CSGBooleanGeometry/CSGBooleanGeometry/Sources/Shapes.cpp:639-730 | The same result over the scene from the intended world canonicaliser. |
| Faces.FacesOfScene | CSGBooleanGeometry/CSGBooleanGeometry/Sources/Shapes.cpp:648-730 | From two index buffers of whole triangles onward: the two containment filters, then the faces in triangle order, then the deduplicated face points. |
| Faces.FaceOfProperties | CSGBooleanGeometry/CSGBooleanGeometry/Sources/Shapes.cpp:686-704 | The face of one triangle has a point, has no indices below three points, holds only candidates of that triangle, and has a point near every candidate. |
| Faces.FacesProperties | CSGBooleanGeometry/CSGBooleanGeometry/Sources/Shapes.cpp:654-708 | At most one face per triangle of A. Every face has a point. A face with fewer than three points has no indices. Every face point is a candidate of its triangle, and every candidate is near a face point. A triangle without a face has no candidate. |

## Left out

- Floating point: positions, dot and cross products, the transform and the tolerances are exact reals. Rounding, NaN and infinity in coordinates are not modelled. Only the ±infinity start values of the projection fold are kept, as `Bound`.
- `glm::normalize` and `std::atan2` are function parameters, so the contracts hold for every choice of them. Their square roots and trigonometry are not modelled.
- Vertex payloads of `CreateSphere` and `CreateCylinder`: the sin/cos positions, normals and colours are replaced by each vertex's role (grid point, side or rim vertex at angle i, cap centre). `CreateBox` keeps its exact positions and normals.
- `OpenGLDataInitialize` (Shapes.cpp:301-338) and the upload of the buffers are graphics-driver I/O. The builders return the vertex and index sequences.
- Console output (Shapes.cpp:603-605, 725-728): the printed points of `GeneratePolygonIntersectionFaces` are its extra output `printed`.
- `GetIntersectionPoints` (Shapes.cpp:521-607) indexes `[0]` into a possibly empty result of `GetEdgeIntersection`, which is undefined behaviour. Its deduplication loop (587-600) is `Dedup.DeduplicatePoints`.
- `Vec3Hash`/`Vec3Equal` are not part of this model. The position map compares positions exactly.
- Unsigned 32-bit arithmetic: ids and counts are unbounded naturals. Wrap-around of `stackCount - 1` for an unsigned zero is not reached, because that loop does not run.
- Faces.SortPointsByAngle: `std::sort` leaves the order among equal angle keys unspecified. The contract fixes only sortedness and permutation, and the insertion sort is one admissible order.
- Faces.CalculateCentroid: for no points the source divides by zero and yields NaN. The model returns `None`, and the sort is only constrained by angle when there are points.
- Containment.GetVertexesWithinMesh: as in the source, B's positions are not moved by `modelMatrixB`, which is unused. The commented-out fallback loop is not modelled.
- The default tolerance of `IsPointInTriangle`: the calls at Shapes.cpp:676 and 682 omit it, and its declaration in the `Shapes` class is not part of this model. `Primitives.TriangleEpsilon` assumes 0.0001.
- `Shapes.h` declares only a graphics-handle `Mesh` and a prototype. It holds no logic, and it is not part of this model.

## Findings

| source | as written | input that shows it | evidently intended | confidence | as-written member | corrected member |
|---|---|---|---|---|---|---|
| CSGBooleanGeometry/CSGBooleanGeometry/Sources/Shapes.cpp:81-86 | The position map is searched with the local position but filled with the transformed one, so a later vertex whose local position equals an earlier world position is merged with it | positions (0,0,0) and (1,0,0), indices [0, 1], translation by +1 along x: ids [0, 0], positions [(1,0,0)] | Transform first, then search and store the world position: ids [0, 1], positions [(1,0,0), (2,0,0)] | not executed | Canonicalise.WorldLookupUsesLocalKey | Canonicalise.ExtractUniqueWorldPositionsAndIndices |

`Faces.GeneratePolygonIntersectionFaces` follows the source and uses the as-written pass. `Faces.ShiftedCornerCollapses` shows what that does to a triangle: it becomes degenerate. `Faces.GeneratePolygonIntersectionFacesIntended` is the same pipeline over the corrected canonicaliser.
