/** parseIndices: decodes the raw index stream in groups of four into a
    0-based triangle index list, and writes a facet normal into the last
    vertex of every triangle it emits. */
module IndexDecoding {
  import opened TMRTTypes

  /** `x` is a 1-based reference to one of `n` vertices. */
  predicate InRange(x: u32, n: nat)
  {
    1 <= x as int <= n
  }

  /** A complete group (a, b, c, x) can be dereferenced against `n` vertices:
      the three corners are in range and x is the sentinel or in range. */
  predicate GroupOk(a: u32, b: u32, c: u32, x: u32, n: nat)
  {
    InRange(a, n) && InRange(b, n) && InRange(c, n) && (x == SENTINEL || InRange(x, n))
  }

  /** Every index parseIndices dereferences is in range: each complete group,
      and a trailing group of exactly three values. A trailing group of one
      or two values is only copied, never dereferenced. */
  predicate MeshIndexable(data: seq<u32>, n: nat)
    decreases |data|
  {
    if |data| < 3 then true
    else if |data| == 3 then InRange(data[0], n) && InRange(data[1], n) && InRange(data[2], n)
    else GroupOk(data[0], data[1], data[2], data[3], n) && MeshIndexable(data[4..], n)
  }

  /** The 0-based indices of a stretch of at most three trailing values. */
  function DecAll(s: seq<u32>): seq<u32>
  {
    seq(|s|, i requires 0 <= i < |s| => Dec(s[i]))
  }

  /** What one complete group emits: the triangle (a, b, c), and for a quad
      also the triangle (a, c, x). */
  function GroupIndices(a: u32, b: u32, c: u32, x: u32): seq<u32>
  {
    if x == SENTINEL then [Dec(a), Dec(b), Dec(c)]
    else [Dec(a), Dec(b), Dec(c), Dec(a), Dec(c), Dec(x)]
  }

  /** The index list parseIndices returns: each complete group's indices in
      stream order, then the trailing incomplete group's values minus one. */
  function IndexList(data: seq<u32>): seq<u32>
    decreases |data|
  {
    if |data| < 4 then DecAll(data)
    else GroupIndices(data[0], data[1], data[2], data[3]) + IndexList(data[4..])
  }

  /** Number of complete groups whose fourth value is the sentinel. */
  function Triangles(data: seq<u32>): nat
    decreases |data|
  {
    if |data| < 4 then 0
    else (if data[3] == SENTINEL then 1 else 0) + Triangles(data[4..])
  }

  /** Number of complete groups whose fourth value is a fourth corner. */
  function Quads(data: seq<u32>): nat
    decreases |data|
  {
    if |data| < 4 then 0
    else (if data[3] == SENTINEL then 0 else 1) + Quads(data[4..])
  }

  /** Every complete group is a triangle or a quad, and the index list holds
      three entries per triangle, six per quad and one per trailing value. */
  lemma {:induction false} IndexListLength(data: seq<u32>)
    ensures Triangles(data) + Quads(data) == |data| / 4
    ensures |IndexList(data)| == 3 * Triangles(data) + 6 * Quads(data) + |data| % 4
    decreases |data|
  {
    if |data| >= 4 {
      IndexListLength(data[4..]);
    }
  }

  /** Decoding a stream made of whole groups followed by anything else
      decodes the two parts independently. */
  lemma {:induction false} IndexListSplit(a: seq<u32>, b: seq<u32>)
    requires |a| % 4 == 0
    ensures IndexList(a + b) == IndexList(a) + IndexList(b)
    decreases |a|
  {
    if |a| == 0 {
      assert a + b == b;
    } else {
      assert (a + b)[4..] == a[4..] + b;
      IndexListSplit(a[4..], b);
    }
  }

  /** vs with vertex j's normal replaced. */
  function SetNormal(vs: seq<Vertex>, j: nat, nrm: Vec3): (r: seq<Vertex>)
    requires j < |vs|
    ensures |r| == |vs|
  {
    vs[j := vs[j].(normal := nrm)]
  }

  /** The triangle (i, j, k) of 0-based indices stores its facet normal in
      its last vertex k only. */
  function Triangle(vs: seq<Vertex>, i: u32, j: u32, k: u32, nf: NormalFn): (r: seq<Vertex>)
    requires i as int < |vs| && j as int < |vs| && k as int < |vs|
    ensures |r| == |vs|
  {
    SetNormal(vs, k as nat, nf(vs[i].position, vs[j].position, vs[k].position))
  }

  /** The normal writes of one complete group: the triangle (a, b, c), then
      for a quad the triangle (a, c, x). */
  function GroupNormals(vs: seq<Vertex>, a: u32, b: u32, c: u32, x: u32, nf: NormalFn): (r: seq<Vertex>)
    requires GroupOk(a, b, c, x, |vs|)
    ensures |r| == |vs|
  {
    var t := Triangle(vs, Dec(a), Dec(b), Dec(c), nf);
    if x == SENTINEL then t else Triangle(t, Dec(a), Dec(c), Dec(x), nf)
  }

  /** The vertex array after parseIndices has processed `data`: the groups'
      normal writes applied in stream order, the last one to a vertex
      winning. Positions and colours are never touched. */
  function Renormal(vs: seq<Vertex>, data: seq<u32>, nf: NormalFn): (r: seq<Vertex>)
    requires MeshIndexable(data, |vs|)
    ensures |r| == |vs|
    decreases |data|
  {
    if |data| < 3 then vs
    else if |data| == 3 then Triangle(vs, Dec(data[0]), Dec(data[1]), Dec(data[2]), nf)
    else Renormal(GroupNormals(vs, data[0], data[1], data[2], data[3], nf), data[4..], nf)
  }

  /** parseIndices changes normals only: every vertex keeps its position and
      colour. */
  lemma {:induction false} RenormalKeepsPositions(vs: seq<Vertex>, data: seq<u32>, nf: NormalFn)
    requires MeshIndexable(data, |vs|)
    ensures forall j :: 0 <= j < |vs| ==>
              Renormal(vs, data, nf)[j].position == vs[j].position &&
              Renormal(vs, data, nf)[j].color == vs[j].color
    decreases |data|
  {
    if |data| > 3 {
      RenormalKeepsPositions(GroupNormals(vs, data[0], data[1], data[2], data[3], nf), data[4..], nf);
    }
  }

  /** A stream of whole groups followed by anything else is indexable iff
      both parts are. */
  lemma {:induction false} MeshIndexableSplit(a: seq<u32>, b: seq<u32>, n: nat)
    requires |a| % 4 == 0
    ensures MeshIndexable(a + b, n) <==> MeshIndexable(a, n) && MeshIndexable(b, n)
    decreases |a|
  {
    if |a| != 0 {
      assert (a + b)[4..] == a[4..] + b;
      MeshIndexableSplit(a[4..], b, n);
    } else {
      assert a + b == b;
    }
  }

  /** Processing whole groups and then the rest is processing the whole
      stream: the vertex array is threaded through in stream order. */
  lemma {:induction false} RenormalSplit(vs: seq<Vertex>, a: seq<u32>, b: seq<u32>, nf: NormalFn)
    requires |a| % 4 == 0 && MeshIndexable(a + b, |vs|)
    ensures MeshIndexable(a, |vs|) && MeshIndexable(b, |vs|)
    ensures Renormal(vs, a + b, nf) == Renormal(Renormal(vs, a, nf), b, nf)
    decreases |a|
  {
    MeshIndexableSplit(a, b, |vs|);
    if |a| == 0 {
      assert a + b == b;
    } else {
      assert (a + b)[4..] == a[4..] + b;
      var g := GroupNormals(vs, a[0], a[1], a[2], a[3], nf);
      RenormalSplit(g, a[4..], b, nf);
    }
  }

  /** parseIndices. Pushes each value of a group's first three minus one,
      and on the third writes the triangle's normal into its last vertex; on
      the fourth value, unless it is the sentinel, pushes the second triangle
      (a, c, x) and writes its normal into x. The group counter then resets. */
  method ParseIndices(vertices: array<Vertex>, data: seq<u32>, nf: NormalFn) returns (indices: seq<u32>)
    requires MeshIndexable(data, vertices.Length)
    modifies vertices
    ensures indices == IndexList(data)
    ensures vertices[..] == Renormal(old(vertices[..]), data, nf)
  {
    ghost var v0 := vertices[..];
    ghost var n := vertices.Length;
    indices := [];
    var index := 0;
    ghost var q := 0;  // where the current group starts
    for i := 0 to |data|
      invariant 0 <= index <= 3 && q == i - index && q % 4 == 0
      invariant MeshIndexable(data[..q], n) && MeshIndexable(data[q..], n)
      invariant indices == IndexList(data[..q]) + DecAll(data[q..i])
      invariant index < 3 ==> vertices[..] == Renormal(v0, data[..q], nf)
      invariant index == 3 ==>
                  vertices[..] == Triangle(Renormal(v0, data[..q], nf),
                                           Dec(data[q]), Dec(data[q + 1]), Dec(data[q + 2]), nf)
    {
      GroupAt(data, q, i, n);
      if index < 3 {
        PushStep(data, q, i, IndexList(data[..q]));
        indices := PushCorner(vertices, indices, data[i], index, nf);
        index := index + 1;
      } else {
        ghost var pre := indices;
        indices := CloseGroup(vertices, indices, data, i, nf);
        GroupStep(v0, data, q, nf);
        CloseGroupIndices(IndexList(data[..q]), data[q], data[q + 1], data[q + 2], data[q + 3], pre, indices);
        NextGroup(data, q, indices);
        index := 0;
        q := i + 1;
      }
    }
    assert data[..|data|] == data;
    FinishTrailing(v0, data, q, nf);
  }

  /** The index list once the fourth value (a, b, c, x) of a group is
      handled: the group's own indices follow those before it. */
  lemma CloseGroupIndices(done: seq<u32>, a: u32, b: u32, c: u32, x: u32, pre: seq<u32>, post: seq<u32>)
    requires pre == done + [Dec(a), Dec(b), Dec(c)]
    requires post == if x == SENTINEL then pre else pre + [Dec(a)] + [Dec(c)] + [Dec(x)]
    ensures post == done + GroupIndices(a, b, c, x)
  {
    if x != SENTINEL {
      assert [Dec(a), Dec(b), Dec(c)] + [Dec(a)] + [Dec(c)] + [Dec(x)] == GroupIndices(a, b, c, x);
    }
  }

  /** A value at group position 0, 1 or 2 (`index < 3`): push it minus one;
      on the third, store the triangle's normal in its last vertex. */
  method PushCorner(vertices: array<Vertex>, indices: seq<u32>, value: u32, index: nat, nf: NormalFn)
    returns (r: seq<u32>)
    requires index < 3 && index <= |indices|
    requires index == 2 ==> indices[|indices| - 2] as int < vertices.Length &&
                            indices[|indices| - 1] as int < vertices.Length &&
                            Dec(value) as int < vertices.Length
    modifies vertices
    ensures r == indices + [Dec(value)]
    ensures index < 2 ==> vertices[..] == old(vertices[..])
    ensures index == 2 ==> vertices[..] == Triangle(old(vertices[..]), indices[|indices| - 2],
                                                    indices[|indices| - 1], Dec(value), nf)
  {
    r := indices + [Dec(value)];
    if index == 2 {
      var last := |r| - 1;
      StoreTriangleNormal(vertices, r[last - 2], r[last - 1], r[last], nf);
    }
  }

  /** The fourth value of a group (`index == 3`): unless it is the sentinel,
      push the second triangle (a, c, x) and store its normal in x. */
  method CloseGroup(vertices: array<Vertex>, indices: seq<u32>, data: seq<u32>, i: nat, nf: NormalFn)
    returns (r: seq<u32>)
    requires 3 <= i < |data|
    requires data[i] != SENTINEL ==> Dec(data[i - 3]) as int < vertices.Length &&
                                     Dec(data[i - 1]) as int < vertices.Length &&
                                     Dec(data[i]) as int < vertices.Length
    modifies vertices
    ensures data[i] == SENTINEL ==> r == indices && vertices[..] == old(vertices[..])
    ensures data[i] != SENTINEL ==>
              r == indices + [Dec(data[i - 3])] + [Dec(data[i - 1])] + [Dec(data[i])] &&
              vertices[..] == Triangle(old(vertices[..]), Dec(data[i - 3]), Dec(data[i - 1]), Dec(data[i]), nf)
  {
    r := indices;
    if data[i] != SENTINEL {
      r := r + [Dec(data[i - 3])];
      r := r + [Dec(data[i - 1])];
      r := r + [Dec(data[i])];
      var last := |r| - 1;
      StoreTriangleNormal(vertices, r[last - 2], r[last - 1], r[last], nf);
    }
  }

  /** The value at i lies in the group that starts at q; what the group's
      first values say about the range of its indices. */
  lemma GroupAt(data: seq<u32>, q: nat, i: nat, n: nat)
    requires q <= i < |data| && i < q + 4 && MeshIndexable(data[q..], n)
    ensures i == q + 2 ==> InRange(data[q], n) && InRange(data[q + 1], n) && InRange(data[q + 2], n)
    ensures i == q + 3 ==> GroupOk(data[q], data[q + 1], data[q + 2], data[q + 3], n)
    ensures i >= q + 1 ==> DecAll(data[q..i])[0] == Dec(data[q])
    ensures i >= q + 2 ==> DecAll(data[q..i])[1] == Dec(data[q + 1])
    ensures i == q + 3 ==> DecAll(data[q..i]) == [Dec(data[q]), Dec(data[q + 1]), Dec(data[q + 2])]
  {
    var g := data[q..];
    assert i - q < |g| && g[i - q] == data[i];
    assert forall k :: 0 <= k <= i - q ==> g[k] == data[q + k];
  }

  /** The next group starts four values later, with nothing pushed yet. */
  lemma NextGroup(data: seq<u32>, q: nat, indices: seq<u32>)
    requires q % 4 == 0 && q + 4 <= |data|
    ensures (q + 4) % 4 == 0
    ensures indices + DecAll(data[q + 4..q + 4]) == indices
  {
    assert DecAll(data[q + 4..q + 4]) == [];
  }

  /** Pushing one more value of the current group. */
  lemma PushStep(data: seq<u32>, q: nat, i: nat, done: seq<u32>)
    requires q <= i < |data| && i < q + 3
    ensures done + DecAll(data[q..i + 1]) == (done + DecAll(data[q..i])) + [Dec(data[i])]
    ensures i == q + 2 ==> DecAll(data[q..i + 1]) == [Dec(data[q]), Dec(data[q + 1]), Dec(data[q + 2])]
  {
    assert data[q..i + 1] == data[q..i] + [data[i]];
    assert DecAll(data[q..i + 1]) == DecAll(data[q..i]) + [Dec(data[i])];
  }

  /** `vertices[k].normal = computeFacetNormal(p_i, p_j, p_k)`: the one
      assignment parseIndices makes, for both triangles of a group. */
  method StoreTriangleNormal(vertices: array<Vertex>, i: u32, j: u32, k: u32, nf: NormalFn)
    requires i as int < vertices.Length && j as int < vertices.Length && k as int < vertices.Length
    modifies vertices
    ensures vertices[..] == Triangle(old(vertices[..]), i, j, k, nf)
  {
    vertices[k] := vertices[k].(normal :=
      nf(vertices[i].position, vertices[j].position, vertices[k].position));
  }

  /** After a complete group at q, the index list and vertex array are those
      of the prefix that ends with that group. */
  lemma GroupStep(v0: seq<Vertex>, data: seq<u32>, q: nat, nf: NormalFn)
    requires q % 4 == 0 && q + 4 <= |data|
    requires MeshIndexable(data[..q], |v0|) && MeshIndexable(data[q..], |v0|)
    ensures MeshIndexable(data[..q + 4], |v0|) && MeshIndexable(data[q + 4..], |v0|)
    ensures GroupOk(data[q], data[q + 1], data[q + 2], data[q + 3], |v0|)
    ensures IndexList(data[..q + 4]) ==
            IndexList(data[..q]) + GroupIndices(data[q], data[q + 1], data[q + 2], data[q + 3])
    ensures Renormal(v0, data[..q + 4], nf) ==
            GroupNormals(Renormal(v0, data[..q], nf), data[q], data[q + 1], data[q + 2], data[q + 3], nf)
  {
    GroupAt(data, q, q + 3, |v0|);
    var a, b, c, x := data[q], data[q + 1], data[q + 2], data[q + 3];
    var p := data[..q];
    PrefixThroughGroup(data, q);
    RestIndexable(data, q, |v0|);
    AppendGroup(v0, p, a, b, c, x, nf);
  }

  /** What follows the complete group at q is indexable as well. */
  lemma RestIndexable(data: seq<u32>, q: nat, n: nat)
    requires q + 4 <= |data| && MeshIndexable(data[q..], n)
    ensures MeshIndexable(data[q + 4..], n)
  {
    assert data[q..][4..] == data[q + 4..];
  }

  /** The prefix through the group at q, as the prefix before it and the
      group's four values. */
  lemma PrefixThroughGroup(data: seq<u32>, q: nat)
    requires q + 4 <= |data|
    ensures data[..q + 4] == data[..q] + [data[q], data[q + 1], data[q + 2], data[q + 3]]
  {
  }

  /** Appending one complete group (a, b, c, x) to whole groups p. */
  lemma AppendGroup(v0: seq<Vertex>, p: seq<u32>, a: u32, b: u32, c: u32, x: u32, nf: NormalFn)
    requires |p| % 4 == 0
    requires MeshIndexable(p, |v0|) && GroupOk(a, b, c, x, |v0|)
    ensures MeshIndexable(p + [a, b, c, x], |v0|)
    ensures IndexList(p + [a, b, c, x]) == IndexList(p) + GroupIndices(a, b, c, x)
    ensures Renormal(v0, p + [a, b, c, x], nf) == GroupNormals(Renormal(v0, p, nf), a, b, c, x, nf)
  {
    var g := [a, b, c, x];
    assert g[4..] == [];
    assert MeshIndexable(g, |v0|);
    assert IndexList(g) == GroupIndices(a, b, c, x) + DecAll([]);
    assert DecAll([]) == [];
    MeshIndexableSplit(p, g, |v0|);
    IndexListSplit(p, g);
    RenormalSplit(v0, p, g, nf);
  }

  /** The trailing zero to three values after the last complete group. */
  lemma FinishTrailing(v0: seq<Vertex>, data: seq<u32>, q: nat, nf: NormalFn)
    requires q % 4 == 0 && q <= |data| < q + 4
    requires MeshIndexable(data[..q], |v0|) && MeshIndexable(data[q..], |v0|)
    ensures MeshIndexable(data, |v0|)
    ensures IndexList(data) == IndexList(data[..q]) + DecAll(data[q..])
    ensures |data| - q < 3 ==> Renormal(v0, data, nf) == Renormal(v0, data[..q], nf)
    ensures |data| - q == 3 ==>
              Renormal(v0, data, nf) ==
              Triangle(Renormal(v0, data[..q], nf), Dec(data[q]), Dec(data[q + 1]), Dec(data[q + 2]), nf)
  {
    assert data == data[..q] + data[q..];
    var t := data[q..];
    assert |t| == 3 ==> t[0] == data[q] && t[1] == data[q + 1] && t[2] == data[q + 2];
    AppendTrailing(v0, data[..q], t, nf);
  }

  /** Appending a trailing incomplete group t to whole groups p. */
  lemma AppendTrailing(v0: seq<Vertex>, p: seq<u32>, t: seq<u32>, nf: NormalFn)
    requires |p| % 4 == 0 && |t| < 4
    requires MeshIndexable(p, |v0|) && MeshIndexable(t, |v0|)
    ensures MeshIndexable(p + t, |v0|)
    ensures IndexList(p + t) == IndexList(p) + DecAll(t)
    ensures |t| < 3 ==> Renormal(v0, p + t, nf) == Renormal(v0, p, nf)
    ensures |t| == 3 ==>
              Renormal(v0, p + t, nf) == Triangle(Renormal(v0, p, nf), Dec(t[0]), Dec(t[1]), Dec(t[2]), nf)
  {
    MeshIndexableSplit(p, t, |v0|);
    IndexListSplit(p, t);
    RenormalSplit(v0, p, t, nf);
  }

  // ---------------------------------------------------------------------
  // Last writer wins: an independent account of the normals, as a log of
  // writes in emission order.

  /** One normal assignment `vertices[vertex].normal = normal`. */
  datatype NormalWrite = NormalWrite(vertex: nat, normal: Vec3)

  /** The write of the triangle (i, j, k): its normal into its last vertex. */
  function TriangleWrite(vs: seq<Vertex>, i: u32, j: u32, k: u32, nf: NormalFn): NormalWrite
    requires i as int < |vs| && j as int < |vs| && k as int < |vs|
  {
    NormalWrite(k as nat, nf(vs[i].position, vs[j].position, vs[k].position))
  }

  /** The writes of one complete group (a, b, c, x). */
  function GroupWrites(vs: seq<Vertex>, a: u32, b: u32, c: u32, x: u32, nf: NormalFn): seq<NormalWrite>
    requires GroupOk(a, b, c, x, |vs|)
  {
    [TriangleWrite(vs, Dec(a), Dec(b), Dec(c), nf)]
    + if x == SENTINEL then [] else [TriangleWrite(vs, Dec(a), Dec(c), Dec(x), nf)]
  }

  /** The normal writes parseIndices performs, in order. Positions never
      change while it runs, so they are read from the input array. */
  function Writes(vs: seq<Vertex>, data: seq<u32>, nf: NormalFn): seq<NormalWrite>
    requires MeshIndexable(data, |vs|)
    decreases |data|
  {
    if |data| < 3 then []
    else if |data| == 3 then [TriangleWrite(vs, Dec(data[0]), Dec(data[1]), Dec(data[2]), nf)]
    else GroupWrites(vs, data[0], data[1], data[2], data[3], nf) + Writes(vs, data[4..], nf)
  }

  /** The value of the last write to vertex j in the log, if any. */
  function LastWrite(w: seq<NormalWrite>, j: nat): Option<Vec3>
    decreases |w|
  {
    if w == [] then None
    else if w[|w| - 1].vertex == j then Some(w[|w| - 1].normal)
    else LastWrite(w[..|w| - 1], j)
  }

  /** A later part of the log overrides an earlier one. */
  lemma {:induction false} LastWriteAppend(w1: seq<NormalWrite>, w2: seq<NormalWrite>, j: nat)
    ensures LastWrite(w1 + w2, j) == if LastWrite(w2, j).Some? then LastWrite(w2, j) else LastWrite(w1, j)
    decreases |w2|
  {
    if w2 == [] {
      assert w1 + w2 == w1;
    } else {
      var k := |w2| - 1;
      assert (w1 + w2)[..|w1 + w2| - 1] == w1 + w2[..k];
      LastWriteAppend(w1, w2[..k], j);
    }
  }

  /** The log depends on the positions only. */
  lemma {:induction false} WritesReadPositions(vs: seq<Vertex>, us: seq<Vertex>, data: seq<u32>, nf: NormalFn)
    requires |vs| == |us| && MeshIndexable(data, |vs|)
    requires forall j :: 0 <= j < |vs| ==> vs[j].position == us[j].position
    ensures Writes(vs, data, nf) == Writes(us, data, nf)
    decreases |data|
  {
    if |data| > 3 {
      WritesReadPositions(vs, us, data[4..], nf);
    }
  }

  /** One complete group's normal writes, replayed on the array, agree
      with its log. */
  lemma GroupLastWrite(vs: seq<Vertex>, a: u32, b: u32, c: u32, x: u32, nf: NormalFn, j: nat)
    requires GroupOk(a, b, c, x, |vs|) && j < |vs|
    ensures GroupNormals(vs, a, b, c, x, nf)[j].normal ==
            LastWrite(GroupWrites(vs, a, b, c, x, nf), j).GetOr(vs[j].normal)
    ensures LastWrite(GroupWrites(vs, a, b, c, x, nf), j) == None ==> GroupNormals(vs, a, b, c, x, nf)[j] == vs[j]
  {
    var w1 := [TriangleWrite(vs, Dec(a), Dec(b), Dec(c), nf)];
    assert LastWrite(w1, j) == if j == Dec(c) as nat then Some(w1[0].normal) else None by {
      assert w1[..0] == [];
    }
    if x != SENTINEL {
      var w2 := [TriangleWrite(vs, Dec(a), Dec(c), Dec(x), nf)];
      assert LastWrite(w2, j) == if j == Dec(x) as nat then Some(w2[0].normal) else None by {
        assert w2[..0] == [];
      }
      LastWriteAppend(w1, w2, j);
    } else {
      assert GroupWrites(vs, a, b, c, x, nf) == w1;
    }
  }

  /** Vertex j's normal after parseIndices is the last value written to it,
      or its original normal if no emitted triangle ends at j; a vertex no
      triangle ends at is left exactly as it was. */
  lemma {:induction false} LastWriterWins(vs: seq<Vertex>, data: seq<u32>, nf: NormalFn, j: nat)
    requires MeshIndexable(data, |vs|) && j < |vs|
    ensures Renormal(vs, data, nf)[j].normal == LastWrite(Writes(vs, data, nf), j).GetOr(vs[j].normal)
    ensures LastWrite(Writes(vs, data, nf), j) == None ==> Renormal(vs, data, nf)[j] == vs[j]
    decreases |data|
  {
    if |data| < 3 {
    } else if |data| == 3 {
      var w := Writes(vs, data, nf);
      assert w[..0] == [];
    } else {
      var a, b, c, x := data[0], data[1], data[2], data[3];
      var g := GroupNormals(vs, a, b, c, x, nf);
      var w0 := GroupWrites(vs, a, b, c, x, nf);
      GroupLastWrite(vs, a, b, c, x, nf, j);
      WritesReadPositions(g, vs, data[4..], nf);
      LastWriterWins(g, data[4..], nf, j);
      LastWriteAppend(w0, Writes(vs, data[4..], nf), j);
    }
  }
}
