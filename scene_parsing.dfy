/** parseRays and parseVerticies: flat float streams grouped into records. */
module SceneParsing {
  import opened TMRTTypes

  /** One ray per complete group of three floats; the group is its origin and
      every other field keeps the zero value `resize` gave it. A trailing
      group of one or two floats is dropped. */
  method ParseRays(data: seq<real>) returns (rays: seq<Ray>)
    ensures |rays| == |data| / 3
    ensures forall i :: 0 <= i < |rays| ==>
              rays[i] == ZERO_RAY.(origin := Vec3(data[3 * i], data[3 * i + 1], data[3 * i + 2]))
  {
    var a := new Ray[|data| / 3](_ => ZERO_RAY);
    var index := 0;
    for i := 0 to a.Length
      invariant index == 3 * i
      invariant forall k :: 0 <= k < i ==>
                  a[k] == ZERO_RAY.(origin := Vec3(data[3 * k], data[3 * k + 1], data[3 * k + 2]))
      invariant forall k :: i <= k < a.Length ==> a[k] == ZERO_RAY
    {
      a[i] := a[i].(origin := Vec3(data[index], data[index + 1], data[index + 2]));
      index := index + 3;
    }
    rays := a[..];
  }

  /** The colour parseVerticies picks from a vertex's auxiliary scalar. */
  function Colour(aux: real): (c: Vec3)
    ensures c == HOT <==> aux > HOT_THRESHOLD
    ensures c == COLD <==> aux <= HOT_THRESHOLD
  {
    if aux > HOT_THRESHOLD then HOT else COLD
  }

  /** One vertex per complete group of four floats: the first three are its
      position, the fourth chooses its colour; the normal stays zero. */
  method ParseVertices(data: seq<real>) returns (vertices: seq<Vertex>)
    ensures |vertices| == |data| / 4
    ensures forall i :: 0 <= i < |vertices| ==>
              vertices[i].position == Vec3(data[4 * i], data[4 * i + 1], data[4 * i + 2])
    ensures forall i :: 0 <= i < |vertices| ==>
              (vertices[i].color == HOT <==> data[4 * i + 3] > HOT_THRESHOLD) &&
              (vertices[i].color == COLD <==> data[4 * i + 3] <= HOT_THRESHOLD)
    ensures forall i :: 0 <= i < |vertices| ==> vertices[i].normal == ZERO
  {
    var a := new Vertex[|data| / 4](_ => Vertex(ZERO, ZERO, ZERO));
    var index := 0;
    for i := 0 to a.Length
      invariant index == 4 * i
      invariant forall k :: 0 <= k < i ==>
                  a[k] == Vertex(Vec3(data[4 * k], data[4 * k + 1], data[4 * k + 2]),
                                 Colour(data[4 * k + 3]), ZERO)
      invariant forall k :: i <= k < a.Length ==> a[k] == Vertex(ZERO, ZERO, ZERO)
    {
      a[i] := a[i].(position := Vec3(data[index], data[index + 1], data[index + 2]));
      a[i] := a[i].(color := if data[index + 3] > HOT_THRESHOLD then HOT else COLD);
      index := index + 4;
    }
    vertices := a[..];
  }
}
