/** parseFacets and the material pass of OnAttach: one Facet record per
    complete group of the raw index stream. */
module FacetExtraction {
  import opened TMRTTypes
  import opened IndexDecoding

  /** `fc.id = f.size()`: a size_t count stored in a GLuint, so it wraps. */
  function Id(k: nat): (r: u32)
    ensures k < 0x1_0000_0000 ==> r as int == k
  {
    (k % 0x1_0000_0000) as u32
  }

  /** Every index parseFacets dereferences is in range: those of the complete
      groups. A trailing incomplete group is never read. */
  predicate FacetIndexable(data: seq<u32>, n: nat)
    decreases |data|
  {
    |data| >= 4 ==> GroupOk(data[0], data[1], data[2], data[3], n) && FacetIndexable(data[4..], n)
  }

  /** What parseIndices dereferences includes what parseFacets does. */
  lemma {:induction false} MeshIsFacetIndexable(data: seq<u32>, n: nat)
    requires MeshIndexable(data, n)
    ensures FacetIndexable(data, n)
    decreases |data|
  {
    if |data| >= 4 {
      MeshIsFacetIndexable(data[4..], n);
    }
  }

  /** The facet of the complete group (a, b, c, x): the positions of its
      corners, p4 = (-1, -1, -1) for a triangle, and the current normal of
      its third corner. The specular tag is set later by the material pass. */
  function MakeFacet(vs: seq<Vertex>, a: u32, b: u32, c: u32, x: u32, id: u32): Facet
    requires GroupOk(a, b, c, x, |vs|)
  {
    Facet(p1 := vs[Dec(a)].position,
          p2 := vs[Dec(b)].position,
          p3 := vs[Dec(c)].position,
          p4 := if x == SENTINEL then NO_CORNER else vs[Dec(x)].position,
          normal := vs[Dec(c)].normal,
          id := id,
          specular := 0)
  }

  /** The facets of the complete groups of `data`, numbered from `first`. */
  function FacetsFrom(vs: seq<Vertex>, data: seq<u32>, first: nat): (r: seq<Facet>)
    requires FacetIndexable(data, |vs|)
    ensures |r| == |data| / 4
    decreases |data|
  {
    if |data| < 4 then []
    else [MakeFacet(vs, data[0], data[1], data[2], data[3], Id(first))]
         + FacetsFrom(vs, data[4..], first + 1)
  }

  /** The facets parseFacets returns. */
  function Facets(vs: seq<Vertex>, data: seq<u32>): seq<Facet>
    requires FacetIndexable(data, |vs|)
  {
    FacetsFrom(vs, data, 0)
  }

  lemma {:induction false} FacetsFromAt(vs: seq<Vertex>, data: seq<u32>, first: nat, k: nat)
    requires FacetIndexable(data, |vs|) && k < |data| / 4
    ensures GroupOk(data[4 * k], data[4 * k + 1], data[4 * k + 2], data[4 * k + 3], |vs|)
    ensures FacetsFrom(vs, data, first)[k] ==
            MakeFacet(vs, data[4 * k], data[4 * k + 1], data[4 * k + 2], data[4 * k + 3], Id(first + k))
    decreases k
  {
    if k > 0 {
      var rest := data[4..];
      FacetsFromAt(vs, rest, first + 1, k - 1);
      assert rest[4 * (k - 1)] == data[4 * k] && rest[4 * (k - 1) + 1] == data[4 * k + 1];
      assert rest[4 * (k - 1) + 2] == data[4 * k + 2] && rest[4 * (k - 1) + 3] == data[4 * k + 3];
    }
  }

  /** parseFacets emits one facet per complete group, with ids 0, 1, 2, ...
      in stream order; facet k is made from the k-th group (a, b, c, x). */
  lemma FacetsAt(vs: seq<Vertex>, data: seq<u32>, k: nat)
    requires FacetIndexable(data, |vs|) && k < |data| / 4
    ensures |Facets(vs, data)| == |data| / 4
    ensures GroupOk(data[4 * k], data[4 * k + 1], data[4 * k + 2], data[4 * k + 3], |vs|)
    ensures Facets(vs, data)[k] ==
            MakeFacet(vs, data[4 * k], data[4 * k + 1], data[4 * k + 2], data[4 * k + 3], Id(k))
  {
    FacetsFromAt(vs, data, 0, k);
  }

  /** A stream of whole groups followed by anything else is indexable iff
      both parts are. */
  lemma {:induction false} FacetIndexableSplit(a: seq<u32>, b: seq<u32>, n: nat, groups: nat)
    requires |a| == 4 * groups
    ensures FacetIndexable(a + b, n) <==> FacetIndexable(a, n) && FacetIndexable(b, n)
    decreases groups
  {
    if groups == 0 {
      assert a + b == b;
    } else {
      assert (a + b)[4..] == a[4..] + b;
      FacetIndexableSplit(a[4..], b, n, groups - 1);
    }
  }

  /** A stream of `groups` whole groups followed by anything else: the
      facets of the two parts, numbered on from each other. */
  lemma {:induction false} FacetsSplit(vs: seq<Vertex>, a: seq<u32>, b: seq<u32>, first: nat, groups: nat)
    requires |a| == 4 * groups && FacetIndexable(a, |vs|) && FacetIndexable(b, |vs|)
    ensures FacetIndexable(a + b, |vs|)
    ensures FacetsFrom(vs, a + b, first) == FacetsFrom(vs, a, first) + FacetsFrom(vs, b, first + groups)
    decreases groups
  {
    FacetIndexableSplit(a, b, |vs|, groups);
    if groups == 0 {
      assert a + b == b;
    } else {
      assert (a + b)[4..] == a[4..] + b;
      FacetsSplit(vs, a[4..], b, first + 1, groups - 1);
    }
  }

  /** parseFacets. The group counter collects a group's first three values
      minus one in the scratch array fIndices; the fourth value emits the
      facet (a triangle when it is the sentinel, else a quad) and resets the
      counter. A trailing incomplete group emits nothing. */
  method ParseFacets(vertices: array<Vertex>, data: seq<u32>) returns (f: seq<Facet>)
    requires FacetIndexable(data, vertices.Length)
    ensures f == Facets(vertices[..], data)
  {
    ghost var vs := vertices[..];
    ghost var n := vertices.Length;
    f := [];
    var index := 0;
    var fIndices := new u32[4];
    ghost var q := 0;  // where the current group starts
    for i := 0 to |data|
      invariant 0 <= index <= 3 && q == i - index && q % 4 == 0
      invariant FacetIndexable(data[..q], n) && FacetIndexable(data[q..], n)
      invariant f == FacetsFrom(vs, data[..q], 0)
      invariant forall k :: 0 <= k < index ==> fIndices[k] == Dec(data[q + k])
    {
      if index < 3 {
        fIndices[index] := Dec(data[i]);
        index := index + 1;
      } else {
        ghost var a, b, c, x := data[q], data[q + 1], data[q + 2], data[q + 3];
        FacetGroupAt(data, q, n);
        var fc := Facet(ZERO, ZERO, ZERO, ZERO, ZERO, 0, 0);
        fc := fc.(id := Id(|f|));
        fc := fc.(p1 := vertices[fIndices[0]].position);
        fc := fc.(p2 := vertices[fIndices[1]].position);
        fc := fc.(p3 := vertices[fIndices[2]].position);
        fc := fc.(normal := vertices[fIndices[2]].normal);
        if data[i] != SENTINEL {
          fIndices[index] := Dec(data[i]);
          fc := fc.(p4 := vertices[fIndices[3]].position);
        } else {
          fIndices[index] := SENTINEL;
          fc := fc.(p4 := NO_CORNER);
        }
        assert fc == MakeFacet(vs, a, b, c, x, Id(q / 4));
        f := f + [fc];
        AppendFacetGroup(vs, data, q);
        index := 0;
        q := i + 1;
      }
    }
    assert data[..|data|] == data;
    FinishFacets(vs, data, q);
  }

  /** The group at q can be dereferenced. */
  lemma FacetGroupAt(data: seq<u32>, q: nat, n: nat)
    requires q + 4 <= |data| && FacetIndexable(data[q..], n)
    ensures GroupOk(data[q], data[q + 1], data[q + 2], data[q + 3], n)
  {
    var g := data[q..];
    assert g[0] == data[q] && g[1] == data[q + 1] && g[2] == data[q + 2] && g[3] == data[q + 3];
  }

  /** After the complete group at q, the facets are those of the prefix that
      ends with it. */
  lemma AppendFacetGroup(vs: seq<Vertex>, data: seq<u32>, q: nat)
    requires q % 4 == 0 && q + 4 <= |data|
    requires FacetIndexable(data[..q], |vs|) && FacetIndexable(data[q..], |vs|)
    ensures (q + 4) % 4 == 0
    ensures FacetIndexable(data[..q + 4], |vs|) && FacetIndexable(data[q + 4..], |vs|)
    ensures GroupOk(data[q], data[q + 1], data[q + 2], data[q + 3], |vs|)
    ensures FacetsFrom(vs, data[..q + 4], 0) ==
            FacetsFrom(vs, data[..q], 0) + [MakeFacet(vs, data[q], data[q + 1], data[q + 2], data[q + 3], Id(q / 4))]
  {
    var p, g := data[..q], data[q..q + 4];
    assert data[..q + 4] == p + g;
    assert data[q..][4..] == data[q + 4..];
    assert g == data[q..][..4] && g[4..] == [];
    FacetGroupAt(data, q, |vs|);
    FacetsSplit(vs, p, g, 0, q / 4);
  }

  /** A trailing incomplete group adds no facet. */
  lemma FinishFacets(vs: seq<Vertex>, data: seq<u32>, q: nat)
    requires q % 4 == 0 && q <= |data| < q + 4
    requires FacetIndexable(data[..q], |vs|) && FacetIndexable(data[q..], |vs|)
    ensures FacetIndexable(data, |vs|)
    ensures FacetsFrom(vs, data, 0) == FacetsFrom(vs, data[..q], 0)
  {
    assert data == data[..q] + data[q..];
    FacetsSplit(vs, data[..q], data[q..], 0, q / 4);
    assert FacetsFrom(vs, data[..q], 0) + [] == FacetsFrom(vs, data[..q], 0);
  }

  /** The material pass `facets[i].specular = material_data[i]`: facet i
      gets material i and keeps every other field. */
  method AssignMaterials(facets: array<Facet>, material: seq<u32>)
    requires facets.Length <= |material|
    modifies facets
    ensures forall i :: 0 <= i < facets.Length ==> facets[i] == old(facets[i]).(specular := material[i])
  {
    for i := 0 to facets.Length
      invariant forall k :: 0 <= k < i ==> facets[k] == old(facets[k]).(specular := material[k])
      invariant forall k :: i <= k < facets.Length ==> facets[k] == old(facets[k])
    {
      facets[i] := facets[i].(specular := material[i]);
    }
  }
}
