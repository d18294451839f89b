/**
 * The compression framing of the blob store: what `put_blob` hands to the
 * backend, how `get_blob` undoes it and cuts the requested range, the
 * compression marker byte and the configuration parser. The backends and
 * the LZ4 codec are parameters.
 */
module BlobStore {
  import W = Wrappers
  import opened Ints

  type usize = x: int | 0 <= x <= USIZE_MAX

  datatype CompressionAlgo = None | Lz4

  /** Where blobs live; the backends themselves are outside this model. */
  datatype BlobBackend = StoreBackend(name: string) | FsBackend(path: string) | S3Backend(bucket: string)

  datatype BlobStore = BlobStore(backend: BlobBackend, compression: CompressionAlgo)

  /** A byte range `start..end`. */
  datatype Range = Range(start: usize, end: usize)

  datatype BlobError = InternalError(message: string) | BackendError(cause: string)

  /** A backend read of a key over a byte range. */
  type BackendRead = (BlobBackend, Bytes, Range) -> W.Result<W.Option<Bytes>, BlobError>

  /** LZ4 with the size prepended: compression, and decompression with its error text. */
  type Compress = Bytes -> Bytes
  type Decompress = Bytes -> W.Result<Bytes, string>

  const MAGIC_MARKER: u8 := 0xa0

  /** `CompressionAlgo::marker`: the byte appended to compressed blobs. */
  function Marker(algo: CompressionAlgo): (m: u8)
    ensures algo == Lz4 ==> m == 0xa1
    ensures algo == None ==> m == 0
  {
    match algo
    case Lz4 => ((MAGIC_MARKER as bv8) | 0x01) as int
    case None => 0
  }

  /** `with_compression`: the same backend with another compression setting. */
  function WithCompression(store: BlobStore, compression: CompressionAlgo): (r: BlobStore)
    ensures r.backend == store.backend && r.compression == compression
  {
    store.(compression := compression)
  }

  /**
   * `parse_value` for a compression setting stored under configuration key
   * `key`; the error names both the value and the key.
   */
  function ParseCompression(key: string, value: string): (r: W.Result<CompressionAlgo, string>)
    ensures r == W.Ok(Lz4) <==> value == "lz4"
    ensures r == W.Ok(None) <==> value in {"none", "false", "disable", "disabled"}
    ensures r.Err? <==> value !in {"lz4", "none", "false", "disable", "disabled"}
    ensures r.Err? ==> r.error == "Invalid compression algorithm: " + value + " for key " + key
  {
    if value == "lz4" then W.Ok(Lz4)
    else if value in {"none", "false", "disable", "disabled"} then W.Ok(None)
    else W.Err("Invalid compression algorithm: " + value + " for key " + key)
  }

  /** The range asked of the backend: compressed blobs are read whole. */
  function ReadRange(algo: CompressionAlgo, range: Range): (r: Range)
    ensures algo == None ==> r == range
    ensures algo == Lz4 ==> r == Range(0, USIZE_MAX)
  {
    match algo
    case None => range
    case Lz4 => Range(0, USIZE_MAX)
  }

  /** The bytes `put_blob` hands to the backend. */
  function StoredForm(algo: CompressionAlgo, data: Bytes, compress: Compress): (stored: Bytes)
    ensures algo == None ==> stored == data
    ensures algo == Lz4 ==> |stored| == |compress(data)| + 1 && stored[..|stored| - 1] == compress(data) &&
                            stored[|stored| - 1] == Marker(Lz4)
  {
    match algo
    case None => data
    case Lz4 => compress(data) + [Marker(Lz4)]
  }

  /**
   * The requested range of the (decompressed) content: everything when
   * the range reaches the end, else `start..end`, empty when start lies
   * beyond end.
   */
  function Slice(content: Bytes, range: Range): (r: Bytes)
    ensures range.end >= |content| ==> r == content
    ensures range.end < |content| && range.start <= range.end ==> r == content[range.start..range.end]
    ensures range.end < |content| && range.start > range.end ==> r == []
    ensures |r| <= |content|
  {
    if range.end >= |content| then content
    else if range.start <= range.end then content[range.start..range.end]
    else []
  }

  /** The last byte of a blob, 0 for an empty one. */
  function LastByte(data: Bytes): byte
  {
    if |data| > 0 then data[|data| - 1] else 0
  }

  /**
   * Undo the framing of a blob read with compression on: a trailing
   * marker is stripped and the rest decompressed; a blob without the
   * marker is taken as it is.
   */
  function Unframe(data: Bytes, decompress: Decompress): (r: W.Result<Bytes, BlobError>)
    ensures LastByte(data) != Marker(Lz4) ==> r == W.Ok(data)
  {
    if LastByte(data) == Marker(Lz4) then
      match decompress(data[..|data| - 1])
      case Err(err) => W.Err(InternalError("Failed to decompress LZ4 data: " + err))
      case Ok(content) => W.Ok(content)
    else W.Ok(data)
  }

  /** `get_blob`. */
  function GetBlob(store: BlobStore, key: Bytes, range: Range, read: BackendRead, decompress: Decompress)
    : W.Result<W.Option<Bytes>, BlobError>
  {
    var result := read(store.backend, key, ReadRange(store.compression, range));
    match store.compression
    case None => result
    case Lz4 =>
      match result
      case Err(e) => W.Err(e)
      case Ok(None) => W.Ok(W.None)
      case Ok(Some(data)) =>
        match Unframe(data, decompress)
        case Err(e) => W.Err(e)
        case Ok(content) => W.Ok(W.Some(Slice(content, range)))
  }

  /** Without compression the backend's answer for the caller's range is returned as it is. */
  lemma UncompressedPassThrough(store: BlobStore, key: Bytes, range: Range, read: BackendRead, decompress: Decompress)
    requires store.compression == None
    ensures GetBlob(store, key, range, read, decompress) == read(store.backend, key, range)
  {
  }

  /**
   * With compression, a blob stored by `put_blob` reads back as the
   * requested range of the original data, given that decompression undoes
   * compression. A range reaching the end gives back the data itself.
   */
  lemma Lz4RoundTrip(store: BlobStore, key: Bytes, data: Bytes, range: Range,
                     read: BackendRead, compress: Compress, decompress: Decompress)
    requires store.compression == Lz4
    requires decompress(compress(data)) == W.Ok(data)
    requires read(store.backend, key, Range(0, USIZE_MAX)) == W.Ok(W.Some(StoredForm(Lz4, data, compress)))
    ensures GetBlob(store, key, range, read, decompress) == W.Ok(W.Some(Slice(data, range)))
    ensures range.end >= |data| ==> GetBlob(store, key, range, read, decompress) == W.Ok(W.Some(data))
  {
    var stored := StoredForm(Lz4, data, compress);
    assert LastByte(stored) == Marker(Lz4);
    assert Unframe(stored, decompress) == W.Ok(data);
  }

  /**
   * With compression, a blob whose last byte is not the marker (an empty
   * one included) is returned raw, cut to the range; an absent blob is
   * absent and a backend error is passed on.
   */
  lemma Lz4Unmarked(store: BlobStore, key: Bytes, range: Range, read: BackendRead, decompress: Decompress)
    requires store.compression == Lz4
    ensures var result := read(store.backend, key, Range(0, USIZE_MAX));
            var answer := GetBlob(store, key, range, read, decompress);
            (result == W.Ok(W.None) ==> answer == W.Ok(W.None)) &&
            (result.Err? ==> answer == W.Err(result.error)) &&
            (result.Ok? && result.value.Some? && LastByte(result.value.value) != Marker(Lz4) ==>
               answer == W.Ok(W.Some(Slice(result.value.value, range))))
  {
  }

  /**
   * With compression, a marked blob whose body fails to decompress gives
   * an internal error carrying the codec's message.
   */
  lemma Lz4DecompressFailure(store: BlobStore, key: Bytes, range: Range, read: BackendRead, decompress: Decompress, data: Bytes)
    requires store.compression == Lz4
    requires read(store.backend, key, Range(0, USIZE_MAX)) == W.Ok(W.Some(data))
    requires |data| > 0 && data[|data| - 1] == Marker(Lz4) && decompress(data[..|data| - 1]).Err?
    ensures GetBlob(store, key, range, read, decompress) ==
            W.Err(InternalError("Failed to decompress LZ4 data: " + decompress(data[..|data| - 1]).error))
  {
  }
}
