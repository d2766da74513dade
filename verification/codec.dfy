/** The binary codec of the partition-function tables. An ordered sequence of
    doubles is stored as the plain concatenation of their 8-byte machine
    words, with no length prefix; reading it back cuts the blob into 8-byte
    chunks and refuses a blob whose length is not a multiple of 8. Each
    double is an opaque 8-byte word here: no IEEE-754 interpretation. */
module Codec {
  import opened Errors

  newtype byte = b: int | 0 <= b < 256

  /** Item size of the array typecode 'd'. */
  const WordSize: nat := 8

  /** One stored double, as its raw bytes. */
  type Word = w: seq<byte> | |w| == WordSize witness [0, 0, 0, 0, 0, 0, 0, 0]

  /** array('d', xs).tostring(): the words laid end to end. */
  function Encode(xs: seq<Word>): (blob: seq<byte>)
    ensures |blob| == WordSize * |xs|
    ensures |xs| > 0 ==> blob[..WordSize] == xs[0]
  {
    if xs == [] then [] else xs[0] + Encode(xs[1..])
  }

  /** array('d').fromstring(blob): cut into words, or fail on a ragged blob. */
  function Decode(blob: seq<byte>): (r: Result<seq<Word>>)
    ensures r.Ok? <==> |blob| % WordSize == 0
    ensures r.Err? ==> r.error == MalformedBlob
    ensures r.Ok? ==> |r.value| == |blob| / WordSize && Encode(r.value) == blob
  {
    if |blob| % WordSize != 0 then Err(MalformedBlob) else Ok(Chunks(blob))
  }

  function Chunks(blob: seq<byte>): (ws: seq<Word>)
    requires |blob| % WordSize == 0
    ensures |ws| == |blob| / WordSize
    ensures Encode(ws) == blob
    decreases |blob|
  {
    if |blob| == 0 then []
    else
      var rest := Chunks(blob[WordSize..]);
      assert ([blob[..WordSize]] + rest)[1..] == rest;
      [blob[..WordSize]] + rest
  }

  /** Storing a sequence and reading it back gives the same sequence. */
  lemma {:induction false} DecodeEncode(xs: seq<Word>)
    ensures Decode(Encode(xs)) == Ok(xs)
  {
    if xs != [] {
      DecodeEncode(xs[1..]);
      var blob := Encode(xs);
      assert blob[WordSize..] == Encode(xs[1..]);
      assert Chunks(Encode(xs[1..])) == xs[1..];
      assert Chunks(blob) == [xs[0]] + xs[1..];
      assert [xs[0]] + xs[1..] == xs;
    }
  }

  /** Two different sequences never share a blob. */
  lemma EncodeInjective(xs: seq<Word>, ys: seq<Word>)
    requires Encode(xs) == Encode(ys)
    ensures xs == ys
  {
    DecodeEncode(xs);
    DecodeEncode(ys);
  }
}
