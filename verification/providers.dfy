/**
 The built-in providers of compression/provider.go. Each provider appends its own trailer to
 what its codec produces: the no-compression provider appends its id byte, the others a
 9-byte metadata trailer (the input length as a little-endian `uint64`, then the id). The
 zstd, s2 and lz4 codecs themselves are uninterpreted functions.

 This file's providers take one argument in `Decompress` and read the size from their own
 trailer; the engine's `Provider` interface (two arguments) is modelled separately in
 `Compression`.
 */
module Providers {
  import opened Wrappers
  import opened LittleEndian
  import C = Compression

  /** The trailer length; the constant is declared outside the shown files. */
  const METADATA_SIZE: nat := UINT64_SIZE + METHOD_ID_LENGTH
  const METHOD_ID_LENGTH: nat := 1

  const NO_COMPRESSION_ID: byte := 0
  const ZSTD_ID: byte := 1
  const S2_ID: byte := 2
  const LZ4_ID: byte := 3
  /** The level `ZstdCompressionService` starts with. */
  const ZSTD_DEFAULT_LEVEL: int := 3

  datatype Error = MissingMetadata | CodecFailure(code: nat)

  /** A codec: an encoder taking an optional level and a decoder taking an optional size hint. */
  datatype Codec = Codec(
    encode: (seq<byte>, Option<int>) -> Result<seq<byte>, nat>,
    decode: (seq<byte>, Option<int>) -> Result<seq<byte>, nat>)

  datatype Codecs = Codecs(zstd: Codec, s2: Codec, lz4: Codec)

  datatype BuiltIn = NoCompression | Zstd(level: int) | S2 | Lz4

  /** What `extractMetadata` returns: the payload and the length read from the trailer. */
  datatype Trailer = Trailer(data: seq<byte>, size: int)

  const NO_COMPRESSION_SERVICE: BuiltIn := NoCompression
  const ZSTD_COMPRESSION_SERVICE: BuiltIn := Zstd(ZSTD_DEFAULT_LEVEL)
  const S2_COMPRESSION_SERVICE: BuiltIn := S2
  const LZ4_COMPRESSION_SERVICE: BuiltIn := Lz4

  function GetId(p: BuiltIn): byte {
    match p
    case NoCompression => NO_COMPRESSION_ID
    case Zstd(_) => ZSTD_ID
    case S2 => S2_ID
    case Lz4 => LZ4_ID
  }

  /** Different kinds of provider never share an id. */
  lemma IdsDistinct(p: BuiltIn, q: BuiltIn)
    ensures GetId(p) == GetId(q) <==>
      || (p.NoCompression? && q.NoCompression?) || (p.Zstd? && q.Zstd?)
      || (p.S2? && q.S2?) || (p.Lz4? && q.Lz4?)
  {
  }

  /** `getMetadata`: the length as Go's `uint64(n)`, little-endian, then the id. */
  function GetMetadata(id: byte, n: int): (r: seq<byte>)
    ensures |r| == METADATA_SIZE && r[METADATA_SIZE - 1] == id
    ensures Uint64(r[..UINT64_SIZE]) == ToUint64(n)
  {
    var r := PutUint64(ToUint64(n)) + [id];
    assert r[..UINT64_SIZE] == PutUint64(ToUint64(n));
    r
  }

  /** `extractMetadata`: strips the trailer without looking at its id byte. */
  function ExtractMetadata(input: seq<byte>): (r: Result<Trailer, Error>)
    ensures r.Failure? <==> |input| < METADATA_SIZE
    ensures r.Failure? ==> r.error == MissingMetadata
    ensures r.Success? ==> r.value.data == input[..|input| - METADATA_SIZE]
  {
    if |input| < METADATA_SIZE then Failure(MissingMetadata)
    else Success(Trailer(input[..|input| - METADATA_SIZE],
                         ToInt64(Uint64(input[|input| - METADATA_SIZE..|input| - METHOD_ID_LENGTH]))))
  }

  /** The trailer `GetMetadata` writes is read back exactly, whatever the id. */
  lemma ExtractGetMetadata(x: seq<byte>, id: byte, n: int)
    requires -(TWO_TO_THE_63 as int) <= n < TWO_TO_THE_63
    ensures ExtractMetadata(x + GetMetadata(id, n)) == Success(Trailer(x, n))
  {
    var input := x + GetMetadata(id, n);
    assert input[..|input| - METADATA_SIZE] == x;
    assert input[|input| - METADATA_SIZE..|input| - METHOD_ID_LENGTH] == PutUint64(ToUint64(n));
    Int64RoundTrip(n);
  }

  /** Every input long enough is a payload followed by a trailer `GetMetadata` writes. */
  lemma GetExtractMetadata(input: seq<byte>)
    requires ExtractMetadata(input).Success?
    ensures var t := ExtractMetadata(input).value;
      input == t.data + GetMetadata(input[|input| - 1], t.size)
  {
    var t := ExtractMetadata(input).value;
    var size := input[|input| - METADATA_SIZE..|input| - METHOD_ID_LENGTH];
    PutUint64OfUint64(size);
    assert input == t.data + size + [input[|input| - 1]];
  }

  /**
   For a non-zero id the metadata trailer and the engine's footer are the same bytes, so
   either side can read what the other wrote.
   */
  lemma MetadataIsFooter(x: seq<byte>, id: byte, n: int)
    requires id != C.NO_COMPRESSION_ID
    ensures C.AddFooter(x, id, n) == x + GetMetadata(id, n)
  {
  }

  /** The codec a provider runs, and the level it passes; the no-compression provider has none. */
  function CodecOf(p: BuiltIn, codecs: Codecs): Codec
    requires !p.NoCompression?
  {
    match p
    case Zstd(_) => codecs.zstd
    case S2 => codecs.s2
    case Lz4 => codecs.lz4
  }

  function LevelOf(p: BuiltIn): Option<int> {
    if p.Zstd? then Some(p.level) else None
  }

  /** The size hint a provider hands its decoder: s2 ignores the length it stored. */
  function SizeHint(p: BuiltIn, size: int): Option<int> {
    if p.S2? then None else Some(size)
  }

  /** `Compress`: the codec's output (none for no compression) followed by the provider's trailer. */
  function Compress(p: BuiltIn, codecs: Codecs, src: seq<byte>): (r: Result<seq<byte>, Error>)
    ensures p.NoCompression? ==> r == Success(src + [NO_COMPRESSION_ID])
    ensures !p.NoCompression? ==> (r.Success? <==> CodecOf(p, codecs).encode(src, LevelOf(p)).Success?)
    ensures !p.NoCompression? && r.Success? ==>
      r.value == CodecOf(p, codecs).encode(src, LevelOf(p)).value + GetMetadata(GetId(p), |src|)
    ensures r.Success? ==> |r.value| > 0 && r.value[|r.value| - 1] == GetId(p)
  {
    if p.NoCompression? then Success(src + [NO_COMPRESSION_ID])
    else match CodecOf(p, codecs).encode(src, LevelOf(p))
      case Failure(code) => Failure(CodecFailure(code))
      case Success(out) => Success(out + GetMetadata(GetId(p), |src|))
  }

  /**
   Whether decompressing `src` has defined behaviour: the no-compression provider slices off
   a last byte that must exist, and zstd and lz4 allocate a buffer of the stored length,
   which must not be negative.
   */
  predicate Decompressible(p: BuiltIn, src: seq<byte>) {
    && (p.NoCompression? ==> |src| >= METHOD_ID_LENGTH)
    && ((p.Zstd? || p.Lz4?) && ExtractMetadata(src).Success? ==> ExtractMetadata(src).value.size >= 0)
  }

  /** `Decompress`: strips the trailer and hands the payload to the codec. */
  function Decompress(p: BuiltIn, codecs: Codecs, src: seq<byte>): (r: Result<seq<byte>, Error>)
    requires Decompressible(p, src)
    ensures p.NoCompression? ==> r == Success(src[..|src| - METHOD_ID_LENGTH])
    ensures !p.NoCompression? && |src| < METADATA_SIZE ==> r == Failure(MissingMetadata)
    ensures !p.NoCompression? && |src| >= METADATA_SIZE ==>
      var t := ExtractMetadata(src).value;
      var decoded := CodecOf(p, codecs).decode(t.data, SizeHint(p, t.size));
      r == if decoded.Success? then Success(decoded.value) else Failure(CodecFailure(decoded.error))
  {
    if p.NoCompression? then Success(src[..|src| - METHOD_ID_LENGTH])
    else match ExtractMetadata(src)
      case Failure(err) => Failure(err)
      case Success(t) =>
        match CodecOf(p, codecs).decode(t.data, SizeHint(p, t.size))
        case Failure(code) => Failure(CodecFailure(code))
        case Success(out) => Success(out)
  }

  /** What a codec must do for its provider to round-trip `x`. */
  ghost predicate CodecRoundTrips(p: BuiltIn, codecs: Codecs, x: seq<byte>) {
    !p.NoCompression? && CodecOf(p, codecs).encode(x, LevelOf(p)).Success? ==>
      CodecOf(p, codecs).decode(CodecOf(p, codecs).encode(x, LevelOf(p)).value, SizeHint(p, |x|)) == Success(x)
  }

  /**
   `Decompress(Compress(x)) == x`: unconditionally for no compression, and for the others
   whenever the codec round-trips `x`.
   */
  lemma DecompressCompress(p: BuiltIn, codecs: Codecs, x: seq<byte>)
    requires |x| < TWO_TO_THE_63 && CodecRoundTrips(p, codecs, x)
    requires Compress(p, codecs, x).Success?
    ensures Decompressible(p, Compress(p, codecs, x).value)
    ensures Decompress(p, codecs, Compress(p, codecs, x).value) == Success(x)
  {
    if !p.NoCompression? {
      ExtractGetMetadata(CodecOf(p, codecs).encode(x, LevelOf(p)).value, GetId(p), |x|);
    } else {
      assert (x + [NO_COMPRESSION_ID])[..|x|] == x;
    }
  }
}
