/**
 The compression engine of compression/compression.go: a registry of providers keyed by
 id, a size threshold below which data is stored uncompressed, and a footer appended to
 every output so that `Decompress` can find the provider and the original size.

 Footer layout: provider id 0 (no compression) appends the single byte 0; any other id
 appends the original length as a little-endian `uint64` followed by the id byte.
 */
module Compression {
  import opened Wrappers
  import opened LittleEndian

  const PROVIDER_ID_LENGTH: nat := 1
  const ORIGINAL_SIZE_LENGTH: nat := UINT64_SIZE
  const FOOTER_SIZE: nat := PROVIDER_ID_LENGTH + ORIGINAL_SIZE_LENGTH
  /** `minInputSize` when the `minInputLen` parameter is absent. */
  const DEFAULT_NOT_COMPRESSED_BUFFER_SIZE: int := 1024
  /** The provider id that means "stored as is"; the engine has no way to change it. */
  const NO_COMPRESSION_ID: byte := 0

  const PARAM_LEVEL: string := "level"
  const PARAM_MIN_INPUT_LEN: string := "minInputLen"

  datatype Error =
    | MissingFooter        // ErrMissingFooter
    | ProviderNotFound     // ErrProviderNotFound
    | ParamNotFound        // ErrCompressionParamNotFound
    | ParamNotInt          // ErrCompressionParamNotInt
    | ProviderFailure(code: nat)  // an error returned by a provider

  /** A compression parameter: an `int`, or a value of any other type. */
  datatype ParamValue = IntValue(i: int) | OtherValue
  type Params = map<string, ParamValue>

  /** A Go `(int, error)` result: the int is meaningful even alongside an error. */
  datatype IntParam = IntParam(value: int, err: Option<Error>)

  /** A provider as the `Provider` interface sees it; the codecs are uninterpreted. */
  datatype Provider = Provider(
    id: byte,
    compress: seq<byte> -> Result<seq<byte>, Error>,
    decompress: (seq<byte>, int) -> Result<seq<byte>, Error>,
    configure: Params -> Option<Error>)

  datatype Engine = Engine(defaultId: byte, providers: map<byte, Provider>, minInputSize: int)

  /** What `extractFooter` returns: the payload, the provider id and the size hint. */
  datatype Footer = Footer(src: seq<byte>, id: byte, dstSize: int)

  // ---------------------------------------------------------------------------
  // Parameters

  function GetInt(params: Params, key: string): (r: IntParam)
    ensures key !in params ==> r == IntParam(0, Some(ParamNotFound))
    ensures key in params && params[key].OtherValue? ==> r == IntParam(0, Some(ParamNotInt))
    ensures key in params && params[key].IntValue? ==> r == IntParam(params[key].i, None)
  {
    if key !in params then IntParam(0, Some(ParamNotFound))
    else match params[key]
      case IntValue(i) => IntParam(i, None)
      case OtherValue => IntParam(0, Some(ParamNotInt))
  }

  /** Only a missing key falls back to the default; a non-int value is still an error. */
  function GetIntWithDefault(params: Params, key: string, default: int): (r: IntParam)
    ensures key !in params ==> r == IntParam(default, None)
    ensures key in params && params[key].IntValue? ==> r == IntParam(params[key].i, None)
    ensures key in params && params[key].OtherValue? ==> r == IntParam(0, Some(ParamNotInt))
    ensures r.err.Some? <==> key in params && params[key].OtherValue?
  {
    var got := GetInt(params, key);
    if got.err == Some(ParamNotFound) then IntParam(default, None) else got
  }

  // ---------------------------------------------------------------------------
  // Footer

  /** The footer length `AddFooter` appends for a provider id. */
  function FooterLength(id: byte): nat {
    if id == NO_COMPRESSION_ID then PROVIDER_ID_LENGTH else FOOTER_SIZE
  }

  /**
   `addFooter`. Writing into a byte buffer cannot fail, so neither can this; the length is
   converted with Go's `uint64(int)`.
   */
  function AddFooter(compressed: seq<byte>, id: byte, inputLength: int): (r: seq<byte>)
    ensures |r| == |compressed| + FooterLength(id)
    ensures r[..|compressed|] == compressed && r[|r| - 1] == id
  {
    if id == NO_COMPRESSION_ID then compressed + [id]
    else compressed + PutUint64(ToUint64(inputLength)) + [id]
  }

  /**
   `extractFooter`. The source reads the last byte before any length check, so it needs a
   non-empty input; after that, only a non-zero id can find the footer too short. For id 0
   the size hint is the payload's own length.
   */
  function ExtractFooter(input: seq<byte>): (r: Result<Footer, Error>)
    requires |input| >= PROVIDER_ID_LENGTH
    ensures r.Failure? <==> input[|input| - 1] != NO_COMPRESSION_ID && |input| < FOOTER_SIZE
    ensures r.Failure? ==> r.error == MissingFooter
    ensures r.Success? ==> (r.value.id == input[|input| - 1]
      && |r.value.src| == |input| - FooterLength(r.value.id)
      && r.value.src == input[..|r.value.src|])
  {
    var id := input[|input| - PROVIDER_ID_LENGTH];
    if id == NO_COMPRESSION_ID then
      Success(Footer(input[..|input| - PROVIDER_ID_LENGTH], id, |input| - 1))
    else if |input| < FOOTER_SIZE then
      Failure(MissingFooter)
    else
      Success(Footer(input[..|input| - FOOTER_SIZE], id,
                     ToInt64(Uint64(input[|input| - FOOTER_SIZE..|input| - PROVIDER_ID_LENGTH]))))
  }

  /** The footer a non-zero id writes is read back exactly, for every 64-bit length. */
  lemma ExtractAddFooter(x: seq<byte>, id: byte, n: int)
    requires id != NO_COMPRESSION_ID && -(TWO_TO_THE_63 as int) <= n < TWO_TO_THE_63
    ensures ExtractFooter(AddFooter(x, id, n)) == Success(Footer(x, id, n))
  {
    var out := AddFooter(x, id, n);
    assert out[|out| - FOOTER_SIZE..|out| - PROVIDER_ID_LENGTH] == PutUint64(ToUint64(n));
    assert out[..|out| - FOOTER_SIZE] == x;
    Int64RoundTrip(n);
  }

  /** With id 0 the length is not stored: the size hint read back is the payload's length. */
  lemma ExtractAddFooterUncompressed(x: seq<byte>, n: int)
    ensures ExtractFooter(AddFooter(x, NO_COMPRESSION_ID, n)) == Success(Footer(x, NO_COMPRESSION_ID, |x|))
  {
    assert AddFooter(x, NO_COMPRESSION_ID, n)[..|x|] == x;
  }

  /** Every footer `ExtractFooter` accepts is one `AddFooter` writes. */
  lemma AddExtractFooter(input: seq<byte>)
    requires |input| >= PROVIDER_ID_LENGTH && ExtractFooter(input).Success?
    ensures var f := ExtractFooter(input).value;
      AddFooter(f.src, f.id, if f.id == NO_COMPRESSION_ID then 0 else f.dstSize) == input
  {
    var f := ExtractFooter(input).value;
    if f.id == NO_COMPRESSION_ID {
      assert input == input[..|input| - 1] + [input[|input| - 1]];
    } else {
      var size := input[|input| - FOOTER_SIZE..|input| - PROVIDER_ID_LENGTH];
      PutUint64OfUint64(size);
      assert input == f.src + size + [f.id];
    }
  }

  // ---------------------------------------------------------------------------
  // Routing

  /**
   The key `Compress` looks a provider up under: the no-compression id when the input is at
   most `minInputSize` bytes long (inclusive), the default id otherwise.
   */
  function ProviderFor(e: Engine, input: seq<byte>): byte {
    if |input| <= e.minInputSize then NO_COMPRESSION_ID else e.defaultId
  }

  /** Runs `p` on `input` and appends the footer for `p`'s id. */
  function CompressWith(p: Provider, input: seq<byte>): (r: Result<seq<byte>, Error>)
    ensures p.compress(input).Failure? ==> r == Failure(p.compress(input).error)
    ensures p.compress(input).Success? ==> (r.Success?
      && |r.value| == |p.compress(input).value| + FooterLength(p.id)
      && r.value[|r.value| - 1] == p.id
      && r.value[..|p.compress(input).value|] == p.compress(input).value)
  {
    match p.compress(input)
    case Failure(err) => Failure(err)
    case Success(out) => Success(AddFooter(out, p.id, |input|))
  }

  /**
   `Compress`. The source dereferences whatever the registry holds under the chosen id, so
   that id must be registered.
   */
  function Compress(e: Engine, input: seq<byte>): (r: Result<seq<byte>, Error>)
    requires ProviderFor(e, input) in e.providers
    ensures |input| <= e.minInputSize ==> r == CompressWith(e.providers[NO_COMPRESSION_ID], input)
    ensures |input| > e.minInputSize ==> r == CompressWith(e.providers[e.defaultId], input)
  {
    CompressWith(e.providers[ProviderFor(e, input)], input)
  }

  /**
   `CompressWithProvider`: like `Compress` with `id` in place of the default; an
   unregistered `id` is an error only above the threshold, where it would be used.
   */
  function CompressWithProvider(e: Engine, input: seq<byte>, id: byte): (r: Result<seq<byte>, Error>)
    requires |input| <= e.minInputSize ==> NO_COMPRESSION_ID in e.providers
    ensures |input| > e.minInputSize && id !in e.providers ==> r == Failure(ProviderNotFound)
    ensures |input| <= e.minInputSize || id in e.providers ==> r == Compress(e.(defaultId := id), input)
  {
    if |input| <= e.minInputSize then CompressWith(e.providers[NO_COMPRESSION_ID], input)
    else if id !in e.providers then Failure(ProviderNotFound)
    else CompressWith(e.providers[id], input)
  }

  /** `Decompress`. An empty input is out of range in the source, so it is excluded. */
  function Decompress(e: Engine, input: seq<byte>): (r: Result<seq<byte>, Error>)
    requires |input| >= PROVIDER_ID_LENGTH
    ensures ExtractFooter(input).Failure? ==> r == Failure(MissingFooter)
    ensures ExtractFooter(input).Success? && ExtractFooter(input).value.id !in e.providers ==> r == Failure(ProviderNotFound)
    ensures ExtractFooter(input).Success? && ExtractFooter(input).value.id in e.providers ==>
      var f := ExtractFooter(input).value; r == e.providers[f.id].decompress(f.src, f.dstSize)
  {
    match ExtractFooter(input)
    case Failure(err) => Failure(err)
    case Success(f) =>
      if f.id !in e.providers then Failure(ProviderNotFound)
      else e.providers[f.id].decompress(f.src, f.dstSize)
  }

  /** Every registered provider sits under its own id. */
  ghost predicate Registered(e: Engine) {
    forall id :: id in e.providers ==> e.providers[id].id == id
  }

  /**
   What a provider must do for the engine to round-trip `x`: decompressing its output, given
   the size hint the footer yields for its id, gives `x` back.
   */
  ghost predicate RoundTripsOn(p: Provider, x: seq<byte>) {
    p.compress(x).Success? ==>
      var out := p.compress(x).value;
      p.decompress(out, if p.id == NO_COMPRESSION_ID then |out| else |x|) == Success(x)
  }

  /** `Decompress(Compress(x)) == x` whenever the provider chosen for `x` round-trips it. */
  lemma DecompressCompress(e: Engine, x: seq<byte>)
    requires Registered(e) && ProviderFor(e, x) in e.providers
    requires |x| < TWO_TO_THE_63 && RoundTripsOn(e.providers[ProviderFor(e, x)], x)
    requires Compress(e, x).Success?
    ensures Decompress(e, Compress(e, x).value) == Success(x)
  {
    var p := e.providers[ProviderFor(e, x)];
    var out := p.compress(x).value;
    if p.id == NO_COMPRESSION_ID {
      ExtractAddFooterUncompressed(out, |x|);
    } else {
      ExtractAddFooter(out, p.id, |x|);
    }
  }

  /**
   At or below the threshold an identity no-compression provider makes the output the input
   followed by the single byte 0.
   */
  lemma CompressSmallInput(e: Engine, x: seq<byte>)
    requires |x| <= e.minInputSize && NO_COMPRESSION_ID in e.providers
    requires e.providers[NO_COMPRESSION_ID].id == NO_COMPRESSION_ID
    requires e.providers[NO_COMPRESSION_ID].compress(x) == Success(x)
    ensures Compress(e, x) == Success(x + [NO_COMPRESSION_ID])
  {
  }

  // ---------------------------------------------------------------------------
  // Registry

  /** `AddProvider`: registers (or replaces) `p` under its own id. */
  function AddProvider(e: Engine, p: Provider): (r: Engine)
    ensures r.providers.Keys == e.providers.Keys + {p.id} && r.providers[p.id] == p
    ensures forall id :: id in e.providers && id != p.id ==> r.providers[id] == e.providers[id]
    ensures r.defaultId == e.defaultId && r.minInputSize == e.minInputSize
    ensures Registered(e) ==> Registered(r)
  {
    e.(providers := e.providers[p.id := p])
  }

  /** `AddDefaultProvider`: registers `p` and makes it the default. */
  function AddDefaultProvider(e: Engine, p: Provider): (r: Engine)
    ensures r == AddProvider(e, p).(defaultId := p.id)
    ensures r.defaultId in r.providers && r.providers[r.defaultId] == p
    ensures Registered(e) ==> Registered(r)
  {
    e.(providers := e.providers[p.id := p], defaultId := p.id)
  }

  function SetMinInputSize(e: Engine, minInputSize: int): (r: Engine)
    ensures r.minInputSize == minInputSize
    ensures r.providers == e.providers && r.defaultId == e.defaultId
  {
    e.(minInputSize := minInputSize)
  }

  /** `SetDefaultProvider`: an unregistered id is refused and the default is kept. */
  function SetDefaultProvider(e: Engine, id: byte): (r: (Engine, Option<Error>))
    ensures id !in e.providers ==> r == (e, Some(ProviderNotFound))
    ensures id in e.providers ==> r.1 == None && r.0.defaultId == id
    ensures r.0.providers == e.providers && r.0.minInputSize == e.minInputSize
  {
    if id !in e.providers then (e, Some(ProviderNotFound))
    else (e.(defaultId := id), None)
  }

  /**
   `NewEngine`. Id 0 asks for no engine at all. Otherwise the default must be one of the
   built-in providers, every built-in provider is configured with non-empty `params` (in map
   order, stopping at the first error), and `minInputLen` sets the threshold.
   */
  method NewEngine(defaultId: byte, params: Params, builtIns: map<byte, Provider>) returns (r: Result<Option<Engine>, Error>)
    ensures defaultId == NO_COMPRESSION_ID ==> r == Success(None)
    ensures defaultId != NO_COMPRESSION_ID && defaultId !in builtIns ==> r == Failure(ProviderNotFound)
    ensures r.Success? <==>
      || defaultId == NO_COMPRESSION_ID
      || (&& defaultId in builtIns
          && (|params| > 0 ==> forall id :: id in builtIns ==> builtIns[id].configure(params).None?)
          && GetIntWithDefault(params, PARAM_MIN_INPUT_LEN, DEFAULT_NOT_COMPRESSED_BUFFER_SIZE).err.None?)
    ensures r.Success? && defaultId != NO_COMPRESSION_ID ==> r.value == Some(Engine(
      builtIns[defaultId].id, builtIns,
      GetIntWithDefault(params, PARAM_MIN_INPUT_LEN, DEFAULT_NOT_COMPRESSED_BUFFER_SIZE).value))
    ensures r.Failure? && defaultId in builtIns ==>
      || (exists id :: id in builtIns && builtIns[id].configure(params) == Some(r.error))
      || r.error == ParamNotInt
  {
    if defaultId == NO_COMPRESSION_ID {
      return Success(None);
    }
    if defaultId !in builtIns {
      return Failure(ProviderNotFound);
    }
    if |params| > 0 {
      var ids := set id | id in builtIns;
      while ids != {}
        invariant ids <= builtIns.Keys
        invariant forall id :: id in builtIns && id !in ids ==> builtIns[id].configure(params).None?
        decreases ids
      {
        var id :| id in ids;
        var err := builtIns[id].configure(params);
        if err.Some? {
          return Failure(err.value);
        }
        ids := ids - {id};
      }
    }
    var minInputSize := GetIntWithDefault(params, PARAM_MIN_INPUT_LEN, DEFAULT_NOT_COMPRESSED_BUFFER_SIZE);
    if minInputSize.err.Some? {
      return Failure(minInputSize.err.value);
    }
    r := Success(Some(Engine(builtIns[defaultId].id, builtIns, minInputSize.value)));
  }
}
