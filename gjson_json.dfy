/**
 * The typed codec facade of package gjson (json.go): Unmarshal and Marshal
 * with their option folds, MarshalIndent, Dumps, Cast, and extraction by a
 * path. Go's `[]byte` and `string` data are both `Bytes` here, so the
 * conversions `[]byte(d)` and `R(data)` are the identity. The zero value of
 * the destination type is a parameter, as is the path engine.
 */
module GJson {
  import opened Go
  import opened GValue
  import opened EncodingJson
  import opened GJsonOption

  /** `ErrPathNotFound`, the sentinel every failed path lookup wraps. */
  const ErrPathNotFound := Sentinel("ErrPathNotFound", "path not found")

  /** `fmt.Errorf("`%s` %w", path, ErrPathNotFound)`. */
  function PathNotFoundError(path: string): (e: Error)
    ensures Message(e) == "`" + path + "` path not found"
    ensures Is(e, ErrPathNotFound)
  {
    Wrapped("`" + path + "` ", ErrPathNotFound)
  }

  /**
   * The path engine (`gjson.GetBytes(data, path)`): the raw text of the
   * matched value, or `None` when `result.Exists()` is false.
   */
  datatype PathEngine = PathEngine(lookup: (Bytes, string) -> Option<Bytes>)

  // ---------------------------------------------------------------------
  // Decoding

  /** unmarshalWithOptions: fold the options into a record, then decode with the configured decoder. */
  method UnmarshalWithOptions<T>(dec: Decoder<T>, data: Bytes, destination: T, opts: seq<DecodeOption>)
    returns (out: DecodeOutcome<T>)
    ensures out == dec.streamDecode(DecodeSettings(DecodeFold(NoOptions, opts)), data, destination)
  {
    var opt := NoOptions;
    for i := 0 to |opts|
      invariant opt == DecodeFold(NoOptions, opts[..i])
    {
      assert opts[..i + 1][..i] == opts[..i];
      opt := ApplyDecode(opts[i], opt);
    }
    assert opts[..|opts|] == opts;
    out := dec.streamDecode(DecodeSettings(opt), data, destination);
  }

  /**
   * Unmarshal[T](d, opts...): decode into a fresh zero `T`; the plain
   * decoder when there are no options, the configured one otherwise. The
   * destination is returned as the decoder left it, also on failure.
   */
  method Unmarshal<T>(dec: Decoder<T>, d: Bytes, zero: T, opts: seq<DecodeOption>)
    returns (result: T, err: Option<Error>)
    ensures |opts| == 0 ==> DecodeOutcome(result, err) == dec.plainUnmarshal(d, zero)
    ensures |opts| > 0 ==>
              DecodeOutcome(result, err) == dec.streamDecode(DecodeSettings(DecodeFold(NoOptions, opts)), d, zero)
  {
    var data := d;
    if |opts| > 0 {
      var out := UnmarshalWithOptions(dec, data, zero, opts);
      return out.value, out.err;
    }
    var out := dec.plainUnmarshal(data, zero);
    return out.value, out.err;
  }

  // ---------------------------------------------------------------------
  // Encoding

  /** marshalWithOptions: fold the options into a record, then encode with the configured encoder. */
  method MarshalWithOptions<V>(enc: Encoder<V>, v: V, opts: seq<EncodeOption>) returns (out: EncodeOutcome)
    ensures IndentInvariant(EncodeFold(NoOptions, opts))
    ensures out == enc.streamEncode(EncodeSettings(EncodeFold(NoOptions, opts)), v)
  {
    var opt := NoOptions;
    for i := 0 to |opts|
      invariant opt == EncodeFold(NoOptions, opts[..i])
      invariant IndentInvariant(opt)
    {
      assert opts[..i + 1][..i] == opts[..i];
      opt := ApplyEncode(opts[i], opt);
    }
    assert opts[..|opts|] == opts;
    out := enc.streamEncode(EncodeSettings(opt), v);
  }

  /**
   * Marshal[R](v, opts...): the plain encoder when there are no options,
   * the configured one otherwise; bytes and error are passed on together.
   */
  method Marshal<V>(enc: Encoder<V>, v: V, opts: seq<EncodeOption>) returns (data: Bytes, err: Option<Error>)
    ensures |opts| == 0 ==> EncodeOutcome(data, err) == enc.plainMarshal(v)
    ensures |opts| > 0 ==>
              IndentInvariant(EncodeFold(NoOptions, opts)) &&
              EncodeOutcome(data, err) == enc.streamEncode(EncodeSettings(EncodeFold(NoOptions, opts)), v)
  {
    var out;
    if |opts| == 0 {
      out := enc.plainMarshal(v);
    } else {
      out := MarshalWithOptions(enc, v, opts);
    }
    return out.data, out.err;
  }

  /** MarshalIndent[R](v, prefix, indent): `json.MarshalIndent`, with no gjson options involved. */
  method MarshalIndent<V>(enc: Encoder<V>, v: V, prefix: string, indent: string)
    returns (data: Bytes, err: Option<Error>)
    ensures EncodeOutcome(data, err) == enc.marshalIndent(v, prefix, indent)
  {
    var out := enc.marshalIndent(v, prefix, indent);
    return out.data, out.err;
  }

  /** Dumps(v): the bytes of `Marshal[string](v)` without options; the error is dropped. */
  method Dumps<V(!new)>(enc: Encoder<V>, v: V) returns (s: Bytes)
    ensures s == enc.plainMarshal(v).data
    ensures NoBytesOnFailure(enc) && enc.plainMarshal(v).err.Some? ==> s == []
  {
    var data, _ := Marshal(enc, v, []);
    s := data;
  }

  /**
   * Cast[T](from): `Unmarshal[T](Dumps(from))` without options. When the
   * encoding fails, the decoder is handed the empty text and the error it
   * reports is the one Cast returns.
   */
  method Cast<V(!new), T(!new)>(enc: Encoder<V>, dec: Decoder<T>, from: V, zero: T) returns (result: T, err: Option<Error>)
    ensures DecodeOutcome(result, err) == dec.plainUnmarshal(enc.plainMarshal(from).data, zero)
    ensures NoBytesOnFailure(enc) && RejectsEmptyInput(dec) && enc.plainMarshal(from).err.Some? ==> err.Some?
  {
    var s := Dumps(enc, from);
    result, err := Unmarshal(dec, s, zero, []);
  }

  // ---------------------------------------------------------------------
  // Extraction by path

  /**
   * UnmarshalFromPath[T](data, path): the zero value and an error wrapping
   * ErrPathNotFound when the path matches nothing; otherwise exactly
   * `Unmarshal[T]` of the matched raw text, without options.
   */
  method UnmarshalFromPath<T>(engine: PathEngine, dec: Decoder<T>, data: Bytes, path: string, zero: T)
    returns (result: T, err: Option<Error>)
    ensures engine.lookup(data, path).None? ==>
              result == zero && err == Some(PathNotFoundError(path)) &&
              Is(err.value, ErrPathNotFound) && Message(err.value) == "`" + path + "` path not found"
    ensures engine.lookup(data, path).Some? ==>
              DecodeOutcome(result, err) == dec.plainUnmarshal(engine.lookup(data, path).value, zero)
  {
    var found := engine.lookup(data, path);
    if found.None? {
      return zero, Some(PathNotFoundError(path));
    }
    result, err := Unmarshal(dec, found.value, zero, []);
  }

  /**
   * UnmarshalFromPathWithDefault[T](data, path, val): the decoded value when
   * UnmarshalFromPath reports no error, `val` when the path is missing or
   * decoding fails.
   */
  method UnmarshalFromPathWithDefault<T>(engine: PathEngine, dec: Decoder<T>, data: Bytes, path: string, val: T, zero: T)
    returns (r: T)
    ensures engine.lookup(data, path).None? ==> r == val
    ensures engine.lookup(data, path).Some? ==>
              var out := dec.plainUnmarshal(engine.lookup(data, path).value, zero);
              (out.err.None? ==> r == out.value) && (out.err.Some? ==> r == val)
  {
    var result, err := UnmarshalFromPath(engine, dec, data, path, zero);
    r := IfElse(err.None?, result, val);
  }
}
