/** Loading a file into a BAR window, one mapped chunk at a time. */
module BarLoad {
  const CHUNK: nat := 64 * 1024 * 1024

  function Min(a: nat, b: nat): nat { if a <= b then a else b }

  method Memcpy(window: array<bv8>, at: nat, bytes: seq<bv8>)
    requires at + |bytes| <= window.Length
    modifies window
    ensures forall i :: 0 <= i < |bytes| ==> window[at + i] == bytes[i]
    ensures forall j :: 0 <= j < window.Length && !(at <= j < at + |bytes|) ==> window[j] == old(window[j])
  {
    for i := 0 to |bytes|
      invariant forall k :: 0 <= k < i ==> window[at + k] == bytes[k]
      invariant forall j :: 0 <= j < window.Length && !(at <= j < at + i) ==> window[j] == old(window[j])
    {
      window[at + i] := bytes[i];
    }
  }

  /** How a load of `total` bytes ends. `maps(k)` says whether the k-th chunk can be mapped. Either
      everything is there, or exactly the chunks before the first that cannot be mapped. */
  predicate Reaches(maps: nat -> bool, total: nat, chunks: nat, loaded: nat) {
    && loaded == Min(chunks * 0x400_0000, total)
    && (forall k: nat :: k < chunks ==> maps(k))
    && (loaded < total ==> !maps(chunks))
  }

  /** So a load gets everywhere if and only if every chunk of it can be mapped. */
  lemma CompleteIffMapped(maps: nat -> bool, total: nat, chunks: nat, loaded: nat)
    requires Reaches(maps, total, chunks, loaded)
    ensures loaded == total <==> forall k: nat :: k * CHUNK < total ==> maps(k)
  {
    if loaded == total {
      forall k: nat | k * CHUNK < total
        ensures maps(k)
      {
        assert k < chunks;
      }
    } else {
      assert chunks * CHUNK < total;
    }
  }

  /** The load: the window receives the first bytes of the file, byte by byte, as many as the smaller of
      its length and `size`, and nothing else changes; a failed mapping leaves a prefix of whole chunks.
      Chunks are mapped in order, each at its multiple of the chunk size and inside the file, none twice. */
  method Load(window: array<bv8>, offset: nat, size: nat, file: seq<bv8>, maps: nat -> bool)
    returns (loaded: nat, ghost chunks: nat, ghost mapped: seq<nat>)
    requires offset + Min(|file|, size) <= window.Length
    modifies window
    ensures Reaches(maps, if |file| <= size then |file| else size, chunks, loaded)
    ensures forall i :: 0 <= i < loaded ==> window[offset + i] == file[i]
    ensures forall j :: 0 <= j < window.Length && !(offset <= j < offset + loaded) ==> window[j] == old(window[j])
    ensures |mapped| == if loaded < Min(|file|, size) then chunks + 1 else chunks
    ensures forall k :: 0 <= k < |mapped| ==> mapped[k] == k * 0x400_0000 && mapped[k] < Min(|file|, size)
  {
    loaded, chunks, mapped := 0, 0, [];
    var fileSize := Min(|file|, size);
    while loaded < fileSize
      invariant loaded == Min(chunks * CHUNK, fileSize) && chunks == |mapped|
      invariant forall k: nat :: k < chunks ==> maps(k)
      invariant forall i :: 0 <= i < loaded ==> window[offset + i] == file[i]
      invariant forall j :: 0 <= j < window.Length && !(offset <= j < offset + loaded) ==> window[j] == old(window[j])
      invariant forall k :: 0 <= k < |mapped| ==> mapped[k] == k * CHUNK && mapped[k] < fileSize
      decreases fileSize - loaded
    {
      var chunk := Min(CHUNK, fileSize - loaded);
      mapped := mapped + [loaded];
      if !maps(loaded / CHUNK) {
        break;
      }
      ghost var part := file[loaded..loaded + chunk];
      assert forall i :: loaded <= i < loaded + chunk ==> file[i] == part[i - loaded];
      Memcpy(window, offset + loaded, file[loaded..loaded + chunk]);
      loaded, chunks := loaded + chunk, chunks + 1;
    }
  }
}
