/** `Tools.join` (lib/tools.js): concatenate a list of byte buffers into one
    preallocated buffer, and decode it when an encoding is asked for. */
module Tools {
  import opened Wrappers

  newtype byte = b: int | 0 <= b < 256

  /** The bytes of the chunks, one after the other. */
  function Flatten(chunks: seq<seq<byte>>): (r: seq<byte>)
    decreases |chunks|
  {
    if chunks == [] then [] else Flatten(chunks[..|chunks| - 1]) + chunks[|chunks| - 1]
  }

  /** The `reduce` accumulator: the sum of the chunk lengths. */
  function SumLengths(chunks: seq<seq<byte>>): (n: nat)
    decreases |chunks|
  {
    if chunks == [] then 0 else SumLengths(chunks[..|chunks| - 1]) + |chunks[|chunks| - 1]|
  }

  /** The preallocated length is the length of the concatenation. */
  lemma {:induction false} FlattenLength(chunks: seq<seq<byte>>)
    ensures |Flatten(chunks)| == SumLengths(chunks)
    decreases |chunks|
  {
    if chunks != [] { FlattenLength(chunks[..|chunks| - 1]); }
  }

  /** Byte `j` of chunk `i` sits at offset `SumLengths(chunks[..i]) + j`: the
      running `index` of the copy loop when chunk `i` is copied. */
  lemma {:induction false} FlattenAt(chunks: seq<seq<byte>>, i: nat, j: nat)
    requires i < |chunks| && j < |chunks[i]|
    ensures SumLengths(chunks[..i]) + j < |Flatten(chunks)|
    ensures Flatten(chunks)[SumLengths(chunks[..i]) + j] == chunks[i][j]
    decreases |chunks|
  {
    var n := |chunks| - 1;
    var init := chunks[..n];
    FlattenLength(chunks);
    FlattenLength(init);
    if i < n {
      assert init[..i] == chunks[..i];
      FlattenAt(init, i, j);
    } else {
      assert chunks[..i] == init;
    }
  }

  /** A single buffer is returned byte for byte. */
  lemma FlattenSingle(b: seq<byte>)
    ensures Flatten([b]) == b
  {
    assert [b][..0] == [];
  }

  /** Joining is associative with respect to splitting the list anywhere. */
  lemma {:induction false} FlattenAppend(xs: seq<seq<byte>>, ys: seq<seq<byte>>)
    ensures Flatten(xs + ys) == Flatten(xs) + Flatten(ys)
    decreases |ys|
  {
    if ys == [] {
      assert xs + ys == xs;
    } else {
      var n := |ys| - 1;
      assert (xs + ys)[..|xs + ys| - 1] == xs + ys[..n];
      FlattenAppend(xs, ys[..n]);
    }
  }

  /** The contents of the input buffers. */
  ghost function Contents(arr: seq<array<byte>>): (r: seq<seq<byte>>)
    reads arr
    ensures |r| == |arr|
    ensures forall i :: 0 <= i < |arr| ==> r[i] == arr[i][..]
  {
    seq(|arr|, i reads arr requires 0 <= i < |arr| => arr[i][..])
  }

  /** What `join` returns: the buffer itself, or its decoding as a string. */
  datatype Payload = Raw(bytes: seq<byte>) | Decoded(text: string)

  /** The text decoding of `Buffer.toString(encoding)`, which is not modelled. */
  type Decoder = (string, seq<byte>) -> string

  /** `if (encoding)`: an absent or empty encoding asks for raw bytes. */
  predicate Requested(encoding: Option<string>) {
    encoding.Some? && encoding.value != ""
  }

  /** The value `join` gives for the given chunk contents. */
  function Joined(chunks: seq<seq<byte>>, encoding: Option<string>, decode: Decoder): (p: Payload)
    ensures p.Raw? <==> !Requested(encoding)
    ensures p.Raw? ==> |p.bytes| == SumLengths(chunks)
  {
    FlattenLength(chunks);
    if Requested(encoding) then Decoded(decode(encoding.value, Flatten(chunks))) else Raw(Flatten(chunks))
  }

  /** The length computed by `arr.reduce(function (l, b) { return l + b.length; }, 0)`. */
  method TotalLength(arr: seq<array<byte>>) returns (length: nat)
    ensures length == SumLengths(Contents(arr))
  {
    ghost var chunks := Contents(arr);
    length := 0;
    var i := 0;
    while i < |arr|
      invariant 0 <= i <= |arr|
      invariant length == SumLengths(chunks[..i])
    {
      assert chunks[..i + 1][..i] == chunks[..i];
      length := length + arr[i].Length;
      i := i + 1;
    }
    assert chunks[..|arr|] == chunks;
  }

  /** `b.copy(result, index)`: the bytes of `b` land at `index`, the bytes
      before `index` are kept. */
  method CopyInto(b: array<byte>, result: array<byte>, index: nat)
    requires b != result && index + b.Length <= result.Length
    modifies result
    ensures result[..index] == old(result[..index])
    ensures result[index..index + b.Length] == b[..]
  {
    var j := 0;
    while j < b.Length
      invariant 0 <= j <= b.Length
      invariant result[..index] == old(result[..index])
      invariant result[index..index + j] == b[..j]
    {
      result[index + j] := b[j];
      assert result[index..index + j + 1] == result[index..index + j] + [b[j]];
      j := j + 1;
    }
  }

  /** One round of the copy loop: buffer `i` is copied at `index`, after the
      concatenation of the buffers before it. */
  method CopyChunk(arr: seq<array<byte>>, ghost chunks: seq<seq<byte>>, i: nat, index: nat, result: array<byte>)
      returns (next: nat)
    requires i < |arr| == |chunks|
    requires forall k :: 0 <= k < |arr| ==> arr[k] != result && arr[k][..] == chunks[k]
    requires index == SumLengths(chunks[..i]) && index <= SumLengths(chunks) <= result.Length
    requires result[..index] == Flatten(chunks[..i])
    modifies result
    ensures forall k :: 0 <= k < |arr| ==> arr[k][..] == chunks[k]
    ensures next == SumLengths(chunks[..i + 1]) && next <= SumLengths(chunks)
    ensures result[..next] == Flatten(chunks[..i + 1])
  {
    var b := arr[i];
    PrefixStep(chunks, i);
    SumPrefix(chunks, i + 1);
    CopyInto(b, result, index);
    next := index + b.Length;
    assert result[..next] == result[..index] + result[index..next];
  }

  /** The preallocate-and-copy part of `join`: `result` is new, the inputs are
      only read, each buffer is copied at the running `index`, and `index` ends
      at the total length. */
  method Concat(arr: seq<array<byte>>) returns (result: array<byte>)
    ensures fresh(result)
    ensures result[..] == Flatten(Contents(arr))
  {
    ghost var chunks := Contents(arr);
    var length := TotalLength(arr);
    FlattenLength(chunks);
    result := new byte[length];
    var index := 0;
    var i := 0;
    while i < |arr|
      invariant 0 <= i <= |arr|
      invariant forall k :: 0 <= k < |arr| ==> arr[k] != result && arr[k][..] == chunks[k]
      invariant index == SumLengths(chunks[..i]) && index <= length
      invariant result[..index] == Flatten(chunks[..i])
    {
      index := CopyChunk(arr, chunks, i, index, result);
      i := i + 1;
    }
    assert chunks[..|arr|] == chunks;
    assert result[..] == result[..index];
  }

  /** One more chunk of the prefix: its bytes follow, its length adds up. */
  lemma PrefixStep(chunks: seq<seq<byte>>, i: nat)
    requires i < |chunks|
    ensures Flatten(chunks[..i + 1]) == Flatten(chunks[..i]) + chunks[i]
    ensures SumLengths(chunks[..i + 1]) == SumLengths(chunks[..i]) + |chunks[i]|
  {
    assert chunks[..i + 1][..i] == chunks[..i];
  }

  lemma {:induction false} SumPrefix(chunks: seq<seq<byte>>, i: nat)
    requires i <= |chunks|
    ensures SumLengths(chunks[..i]) <= SumLengths(chunks)
    decreases |chunks|
  {
    if i < |chunks| {
      var n := |chunks| - 1;
      assert chunks[..n][..i] == chunks[..i];
      SumPrefix(chunks[..n], i);
    } else {
      assert chunks[..i] == chunks;
    }
  }

  /** `Tools.join(arr, encoding)`. */
  method Join(arr: seq<array<byte>>, encoding: Option<string>, decode: Decoder) returns (r: Payload)
    ensures r == Joined(Contents(arr), encoding, decode)
  {
    var result := Concat(arr);
    if encoding.Some? && encoding.value != "" {
      r := Decoded(decode(encoding.value, result[..]));
    } else {
      r := Raw(result[..]);
    }
  }
}
