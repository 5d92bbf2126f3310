/**
  Handler configuration: one compression level per codec, each checked
  against the codec's own legal range when the option is applied.
*/
module Options {
  import opened Wrappers
  import opened Encoding

  // Level constants of the codec libraries.
  const HuffmanOnly: int := -2          // gzip and zlib
  const FlateBestCompression: int := 9  // gzip and zlib
  const FlateDefaultCompression: int := -1
  const BrotliBestSpeed: int := 0
  const BrotliBestCompression: int := 11
  const BrotliDefaultCompression: int := 6

  /** The level per codec the handler hands to its encoders. */
  datatype HandlerOptions = HandlerOptions(gzipLevel: int, deflateLevel: int, brotliLevel: int) {
    function Level(c: Codec): int {
      match c
      case GzipCodec => gzipLevel
      case DeflateCodec => deflateLevel
      case BrotliCodec => brotliLevel
    }
  }

  /** An option as returned by `GzipLevel`, `DeflateLevel` or `BrotliLevel`. */
  datatype LevelOption = GzipLevel(level: int) | DeflateLevel(level: int) | BrotliLevel(level: int) {
    /** The codec whose level the option sets. */
    function Target(): Codec {
      match this
      case GzipLevel(_) => GzipCodec
      case DeflateLevel(_) => DeflateCodec
      case BrotliLevel(_) => BrotliCodec
    }
  }

  /** An invalid level met while applying an option (a panic in the handler's constructor). */
  datatype ConfigError = InvalidLevel(codec: Codec, level: int)

  function MinLevel(c: Codec): int {
    if c == BrotliCodec then BrotliBestSpeed else HuffmanOnly
  }

  function MaxLevel(c: Codec): int {
    if c == BrotliCodec then BrotliBestCompression else FlateBestCompression
  }

  function DefaultLevel(c: Codec): int {
    if c == BrotliCodec then BrotliDefaultCompression else FlateDefaultCompression
  }

  predicate InRange(o: LevelOption) {
    MinLevel(o.Target()) <= o.level <= MaxLevel(o.Target())
  }

  /** The options before any option is applied: every codec at its default level. */
  const Defaults: HandlerOptions :=
    HandlerOptions(FlateDefaultCompression, FlateDefaultCompression, BrotliDefaultCompression)

  /**
    Applies one option: an out-of-range level fails, an accepted one sets
    its codec's level and leaves the other two alone.
  */
  function Apply(opts: HandlerOptions, o: LevelOption): (r: Result<HandlerOptions, ConfigError>)
    ensures r.Success? <==> MinLevel(o.Target()) <= o.level <= MaxLevel(o.Target())
    ensures r.Failure? ==> r.error == InvalidLevel(o.Target(), o.level)
    ensures r.Success? ==> r.value.Level(o.Target()) == o.level
    ensures r.Success? ==> forall c :: c != o.Target() ==> r.value.Level(c) == opts.Level(c)
  {
    match o
    case GzipLevel(level) =>
      if level < HuffmanOnly || level > FlateBestCompression then Failure(InvalidLevel(GzipCodec, level))
      else Success(opts.(gzipLevel := level))
    case DeflateLevel(level) =>
      if level < HuffmanOnly || level > FlateBestCompression then Failure(InvalidLevel(DeflateCodec, level))
      else Success(opts.(deflateLevel := level))
    case BrotliLevel(level) =>
      if level < BrotliBestSpeed || level > BrotliBestCompression then Failure(InvalidLevel(BrotliCodec, level))
      else Success(opts.(brotliLevel := level))
  }

  /** Applies the options in order; the first invalid one stops the construction. */
  function ApplyAll(opts: HandlerOptions, os: seq<LevelOption>): Result<HandlerOptions, ConfigError>
    decreases |os|
  {
    if os == [] then Success(opts)
    else match Apply(opts, os[0])
      case Failure(e) => Failure(e)
      case Success(next) => ApplyAll(next, os[1..])
  }

  /** The options a handler is built with. */
  function NewHandlerOptions(os: seq<LevelOption>): Result<HandlerOptions, ConfigError> {
    ApplyAll(Defaults, os)
  }

  /** The level the last option for `c` sets, or `fallback` when no option targets `c`. */
  function LastSetting(os: seq<LevelOption>, c: Codec, fallback: int): int {
    if os == [] then fallback
    else if os[|os| - 1].Target() == c then os[|os| - 1].level
    else LastSetting(os[..|os| - 1], c, fallback)
  }

  /** Index of the first out-of-range option, if any. */
  function FirstInvalid(os: seq<LevelOption>): (r: Option<nat>)
    ensures r.Some? ==> r.value < |os| && !InRange(os[r.value])
    ensures r.Some? ==> forall i :: 0 <= i < r.value ==> InRange(os[i])
    ensures r.None? <==> forall i :: 0 <= i < |os| ==> InRange(os[i])
  {
    if os == [] then None
    else if !InRange(os[0]) then Some(0)
    else match FirstInvalid(os[1..])
      case None => None
      case Some(i) => Some(i + 1)
  }

  /** `LastSetting` over a list extended at the front. */
  lemma {:induction false} LastSettingCons(o: LevelOption, os: seq<LevelOption>, c: Codec, fallback: int)
    ensures LastSetting([o] + os, c, fallback)
         == LastSetting(os, c, if o.Target() == c then o.level else fallback)
    decreases |os|
  {
    if os != [] {
      assert ([o] + os)[..|os|] == [o] + os[..|os| - 1];
      LastSettingCons(o, os[..|os| - 1], c, fallback);
    }
  }

  /**
    Applying a list of options succeeds exactly when every level is in its
    codec's range; it then leaves each codec at the level of the last
    option for it (later options override earlier ones), or at the
    starting level; otherwise it reports the first invalid option.
  */
  lemma {:induction false} ApplyAllSpec(opts: HandlerOptions, os: seq<LevelOption>)
    ensures ApplyAll(opts, os).Success? <==> FirstInvalid(os).None?
    ensures ApplyAll(opts, os).Success? ==>
      forall c :: ApplyAll(opts, os).value.Level(c) == LastSetting(os, c, opts.Level(c))
    ensures ApplyAll(opts, os).Failure? ==>
      ApplyAll(opts, os).error == InvalidLevel(os[FirstInvalid(os).value].Target(), os[FirstInvalid(os).value].level)
    decreases |os|
  {
    if os != [] {
      assert os == [os[0]] + os[1..];
      match Apply(opts, os[0])
      case Failure(e) =>
      case Success(next) =>
        ApplyAllSpec(next, os[1..]);
        forall c: Codec
          ensures LastSetting(os, c, opts.Level(c)) == LastSetting(os[1..], c, next.Level(c))
        {
          LastSettingCons(os[0], os[1..], c, opts.Level(c));
        }
    }
  }

  /**
    A handler's options: built iff every option's level is in range, and
    then each codec's level is the last one set for it or its default.
  */
  lemma NewHandlerOptionsSpec(os: seq<LevelOption>)
    ensures NewHandlerOptions(os).Success? <==> forall i :: 0 <= i < |os| ==> InRange(os[i])
    ensures NewHandlerOptions(os).Success? ==>
      forall c :: NewHandlerOptions(os).value.Level(c) == LastSetting(os, c, DefaultLevel(c))
  {
    ApplyAllSpec(Defaults, os);
    assert forall c :: Defaults.Level(c) == DefaultLevel(c);
  }
}
