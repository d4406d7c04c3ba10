/** The encoding loop of saveRays: three 32-bit ints per ray, in ray order. */
module ResultExport {
  import opened TMRTTypes

  /** The words written for one ray: firstHitID, lastHitID, bounce, each
      converted to `int`. */
  function RayWords(r: Ray): seq<i32>
  {
    [ToInt32(r.firstHitID), ToInt32(r.lastHitID), ToInt32(r.bounce)]
  }

  /** The whole result file as words. */
  function ResultWords(rays: seq<Ray>): (w: seq<i32>)
    ensures |w| == 3 * |rays|
  {
    if rays == [] then [] else RayWords(rays[0]) + ResultWords(rays[1..])
  }

  /** The loop of saveRays over the read-back rays. Each `int` is 4 bytes,
      so the file holds 12 bytes per ray. */
  method EncodeResults(result: seq<Ray>) returns (words: seq<i32>)
    ensures words == ResultWords(result)
  {
    words := [];
    for i := 0 to |result|
      invariant words + ResultWords(result[i..]) == ResultWords(result)
    {
      assert result[i..][1..] == result[i + 1..];
      var num := ToInt32(result[i].firstHitID);
      words := words + [num];
      var last := ToInt32(result[i].lastHitID);
      words := words + [last];
      var bounce := ToInt32(result[i].bounce);
      words := words + [bounce];
    }
    assert result[|result|..] == [];
  }

  /** Word 3i, 3i+1 and 3i+2 of the file are ray i's three fields. */
  lemma {:induction false} ResultWordsAt(rays: seq<Ray>, i: nat)
    requires i < |rays|
    ensures ResultWords(rays)[3 * i] == ToInt32(rays[i].firstHitID)
    ensures ResultWords(rays)[3 * i + 1] == ToInt32(rays[i].lastHitID)
    ensures ResultWords(rays)[3 * i + 2] == ToInt32(rays[i].bounce)
    decreases i
  {
    if i > 0 {
      ResultWordsAt(rays[1..], i - 1);
    }
  }

  /** What a reader of the result file recovers per ray. */
  datatype HitRecord = HitRecord(firstHitID: u32, lastHitID: u32, bounce: u32)

  /** The hit fields of every ray, in ray order. */
  function Hits(rays: seq<Ray>): seq<HitRecord>
  {
    seq(|rays|, i requires 0 <= i < |rays| => HitRecord(rays[i].firstHitID, rays[i].lastHitID, rays[i].bounce))
  }

  /** Reads the result file back, three words per record; a trailing
      incomplete record is ignored. */
  function DecodeResults(words: seq<i32>): seq<HitRecord>
    decreases |words|
  {
    if |words| < 3 then []
    else [HitRecord(ToUint32(words[0]), ToUint32(words[1]), ToUint32(words[2]))] + DecodeResults(words[3..])
  }

  /** Decoding the file gives back the three hit fields of every ray. */
  lemma {:induction false} DecodeEncode(rays: seq<Ray>)
    ensures DecodeResults(ResultWords(rays)) == Hits(rays)
    decreases |rays|
  {
    if rays != [] {
      var w := ResultWords(rays);
      assert w[3..] == ResultWords(rays[1..]);
      DecodeEncode(rays[1..]);
      assert Hits(rays) == [Hits(rays)[0]] + Hits(rays[1..]);
    }
  }
}
