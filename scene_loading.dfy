/** The decoding part of OnAttach: the four typed streams become the
    vertex array, the triangle index list, the facet array (with materials)
    and the initial ray array. */
module SceneLoading {
  import opened TMRTTypes
  import opened SceneParsing
  import opened IndexDecoding
  import opened FacetExtraction

  /** A facet's normal is that of its third corner after parseIndices has
      run over the whole stream: the last normal written to that vertex by
      any triangle, this primitive's or a later one's. */
  lemma FacetNormalIsLastWrite(vs: seq<Vertex>, data: seq<u32>, nf: NormalFn, k: nat)
    requires MeshIndexable(data, |vs|) && k < |data| / 4
    ensures FacetIndexable(data, |vs|)
    ensures GroupOk(data[4 * k], data[4 * k + 1], data[4 * k + 2], data[4 * k + 3], |vs|)
    ensures Facets(Renormal(vs, data, nf), data)[k].normal ==
            LastWrite(Writes(vs, data, nf), Dec(data[4 * k + 2]) as nat).GetOr(vs[Dec(data[4 * k + 2])].normal)
  {
    MeshIsFacetIndexable(data, |vs|);
    var after := Renormal(vs, data, nf);
    FacetsAt(after, data, k);
    LastWriterWins(vs, data, nf, Dec(data[4 * k + 2]) as nat);
  }

  /** Two triangles that end at the same vertex: the first facet carries the
      normal of the second triangle, not its own. */
  lemma LaterTriangleOverrides(vs: seq<Vertex>, nf: NormalFn)
    requires |vs| >= 5
    ensures MeshIndexable([1, 2, 3, SENTINEL, 4, 5, 3, SENTINEL], |vs|)
    ensures FacetIndexable([1, 2, 3, SENTINEL, 4, 5, 3, SENTINEL], |vs|)
    ensures Facets(Renormal(vs, [1, 2, 3, SENTINEL, 4, 5, 3, SENTINEL], nf),
                   [1, 2, 3, SENTINEL, 4, 5, 3, SENTINEL])[0].normal ==
            nf(vs[3].position, vs[4].position, vs[2].position)
  {
    var data: seq<u32> := [1, 2, 3, SENTINEL, 4, 5, 3, SENTINEL];
    var rest := data[4..];
    assert rest == [4, 5, 3, SENTINEL] && rest[4..] == [];
    assert MeshIndexable(rest, |vs|);
    FacetNormalIsLastWrite(vs, data, nf, 0);
    var second := Writes(vs, rest, nf);
    assert second == GroupWrites(vs, 4, 5, 3, SENTINEL, nf) + Writes(vs, rest[4..], nf);
    assert second == [TriangleWrite(vs, 3, 4, 2, nf)];
    var w := Writes(vs, data, nf);
    assert w == GroupWrites(vs, 1, 2, 3, SENTINEL, nf) + second;
    assert |w| == 2 && w[1] == TriangleWrite(vs, 3, 4, 2, nf);
  }

  /** OnAttach, source lines 168-176: parse the vertices, decode the index
      stream (writing normals into the vertices), extract the facets from
      the same stream, copy in their materials, and parse the rays. */
  method LoadScene(verticesData: seq<real>, indicesData: seq<u32>, materialData: seq<u32>,
                   raysData: seq<real>, nf: NormalFn)
    returns (vertices: array<Vertex>, indices: seq<u32>, facets: array<Facet>, rayArray: seq<Ray>)
    requires MeshIndexable(indicesData, |verticesData| / 4)
    requires |indicesData| / 4 <= |materialData|
    ensures fresh(vertices) && fresh(facets)
    ensures vertices.Length == |verticesData| / 4
    ensures forall j :: 0 <= j < vertices.Length ==>
              vertices[j].position == Vec3(verticesData[4 * j], verticesData[4 * j + 1], verticesData[4 * j + 2]) &&
              vertices[j].color == Colour(verticesData[4 * j + 3])
    ensures forall j :: 0 <= j < vertices.Length ==>
              vertices[j].normal == LastWrite(Writes(vertices[..], indicesData, nf), j).GetOr(ZERO)
    ensures indices == IndexList(indicesData)
    ensures FacetIndexable(indicesData, vertices.Length)
    ensures facets.Length == |indicesData| / 4
    ensures forall k :: 0 <= k < facets.Length ==>
              facets[k] == Facets(vertices[..], indicesData)[k].(specular := materialData[k])
    ensures |rayArray| == |raysData| / 3
    ensures forall i :: 0 <= i < |rayArray| ==>
              rayArray[i] == ZERO_RAY.(origin := Vec3(raysData[3 * i], raysData[3 * i + 1], raysData[3 * i + 2]))
  {
    var parsed := ParseVertices(verticesData);
    vertices := new Vertex[|parsed|](i requires 0 <= i < |parsed| => parsed[i]);
    assert vertices[..] == parsed;
    indices := ParseIndices(vertices, indicesData, nf);
    MeshIsFacetIndexable(indicesData, vertices.Length);
    var f := ParseFacets(vertices, indicesData);
    facets := new Facet[|f|](i requires 0 <= i < |f| => f[i]);
    AssignMaterials(facets, materialData);
    rayArray := ParseRays(raysData);

    RenormalKeepsPositions(parsed, indicesData, nf);
    WritesReadPositions(parsed, vertices[..], indicesData, nf);
    forall j | 0 <= j < vertices.Length
      ensures vertices[j].normal == LastWrite(Writes(vertices[..], indicesData, nf), j).GetOr(ZERO)
    {
      LastWriterWins(parsed, indicesData, nf, j);
    }
  }
}
