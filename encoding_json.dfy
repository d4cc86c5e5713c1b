/**
 * The parts of Go's `encoding/json` that package gjson drives, kept
 * abstract: the codec is a record of functions supplied by the caller, so
 * that every statement about gjson holds whatever the real parser and
 * printer do. What the model does fix is how gjson configures them.
 */
module EncodingJson {
  import opened Go

  /** The switches of a `json.Decoder`: `DisallowUnknownFields()` and `UseNumber()`. */
  datatype DecoderSettings = DecoderSettings(disallowUnknownFields: bool, useNumber: bool)

  /** A `json.NewDecoder` before any switch is called. */
  const DefaultDecoderSettings := DecoderSettings(false, false)

  /** The state of a `json.Encoder` that `SetEscapeHTML` and `SetIndent` change. */
  datatype EncoderSettings = EncoderSettings(escapeHtml: bool, indentPrefix: string, indent: string)

  /** A `json.NewEncoder`: HTML escaping on, no indentation. */
  const DefaultEncoderSettings := EncoderSettings(true, "", "")

  /**
   * What decoding into `&result` leaves: the destination, which the decoder
   * may have filled partly even when it fails, and the error it returned.
   */
  datatype DecodeOutcome<T> = DecodeOutcome(value: T, err: Option<Error>)

  /** The bytes an encoder produced and the error it returned. */
  datatype EncodeOutcome = EncodeOutcome(data: Bytes, err: Option<Error>)

  /**
   * Decoding into a `T`: `plainUnmarshal` is `json.Unmarshal`,
   * `streamDecode` is `Decode` on a configured `json.Decoder`; both start
   * from the destination's current value. They are distinct library calls
   * and the model does not assume they agree.
   */
  datatype Decoder<!T> = Decoder(
    plainUnmarshal: (Bytes, T) -> DecodeOutcome<T>,
    streamDecode: (DecoderSettings, Bytes, T) -> DecodeOutcome<T>)

  /**
   * Encoding a `V`: `plainMarshal` is `json.Marshal`, `streamEncode` is
   * `Encode` on a configured `json.Encoder` (whose output ends in a newline
   * the model treats as part of the opaque bytes), `marshalIndent` is
   * `json.MarshalIndent`.
   */
  datatype Encoder<-V> = Encoder(
    plainMarshal: V -> EncodeOutcome,
    streamEncode: (EncoderSettings, V) -> EncodeOutcome,
    marshalIndent: (V, string, string) -> EncodeOutcome)

  /** `json.Unmarshal` rejects empty input (it reports "unexpected end of JSON input"). */
  ghost predicate RejectsEmptyInput<T(!new)>(dec: Decoder<T>) {
    forall start: T :: dec.plainUnmarshal([], start).err.Some?
  }

  /** `json.Marshal` returns no bytes when it fails. */
  ghost predicate NoBytesOnFailure<V(!new)>(enc: Encoder<V>) {
    forall v: V :: enc.plainMarshal(v).err.Some? ==> enc.plainMarshal(v).data == []
  }
}
