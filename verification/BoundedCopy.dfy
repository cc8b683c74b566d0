/** Copying an upload of unknown length without ever holding more than one byte too many. */
module BoundedCopy {
  import opened Extremes
  import opened Wrappers

  const CHUNK: nat := 64 * 1024
  const PDF_MAGIC: seq<Byte> := [0x25, 0x50, 0x44, 0x46, 0x2D]

  /** The client's end of an upload. A read may return fewer bytes than asked for, but
      none only at the end; how many is up to the network. */
  class Stream {
    const data: seq<Byte>
    const pace: nat -> nat
    var at: nat

    constructor (data: seq<Byte>, pace: nat -> nat)
      ensures this.data == data && at == 0
    {
      this.data, this.pace, at := data, pace, 0;
    }

    method Read(size: nat) returns (chunk: seq<Byte>)
      requires at <= |data|
      modifies this`at
      ensures at == old(at) + |chunk| <= |data|
      ensures chunk == data[old(at)..at] && |chunk| <= size
      ensures chunk == [] <==> size == 0 || old(at) == |data|
    {
      var some := Min(size, |data| - at);
      var n := if some == 0 then 0 else 1 + pace(at) % some;
      chunk := data[at..at + n];
      at := at + n;
    }
  }

  /** However the bytes arrive: what is copied is the upload up to one byte past the limit,
      the size passes the limit exactly when the upload does, and the sample is the
      upload's first bytes. */
  method CopyUploadBounded(upload: Stream, max: nat) returns (target: seq<Byte>, size: nat, initial: seq<Byte>)
    requires upload.at == 0
    modifies upload
    ensures target == upload.data[..Min(|upload.data|, max + 1)]
    ensures size == |target| == upload.at
    ensures size > max <==> |upload.data| > max
    ensures size <= max ==> target == upload.data
    ensures initial == target[..Min(|target|, |PDF_MAGIC|)]
  {
    target, size, initial := [], 0, [];
    while size <= max
      invariant size == upload.at == |target| <= |upload.data| && size <= max + 1
      invariant target == upload.data[..size]
      invariant initial == target[..Min(size, |PDF_MAGIC|)]
      decreases max + 1 - size
    {
      var chunk := upload.Read(Min(CHUNK, max - size + 1));
      if chunk == [] { break; }
      BytesSoFar(upload.data, size, size + |chunk|);
      target := target + chunk;
      size := size + |chunk|;
      if |initial| < |PDF_MAGIC| {
        initial := (initial + chunk)[..Min(|initial + chunk|, |PDF_MAGIC|)];
      }
      if size > max { break; }
    }
  }

  /** One more chunk extends what was read, and the sample of it. */
  lemma BytesSoFar(data: seq<Byte>, start: nat, end: nat)
    requires start <= end <= |data|
    ensures data[..start] + data[start..end] == data[..end]
    ensures var sample := data[..start][..Min(start, |PDF_MAGIC|)];
      data[..end][..Min(end, |PDF_MAGIC|)]
      == if |sample| < |PDF_MAGIC| then
           (sample + data[start..end])[..Min(|sample + data[start..end]|, |PDF_MAGIC|)]
         else sample
  {
  }
}
