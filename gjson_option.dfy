/**
 * The option record of package gjson (option.go): five optional fields, the
 * decode and encode options that set them, the left-to-right fold that
 * builds the record, and the decoder and encoder settings derived from it.
 */
module GJsonOption {
  import opened Go
  import opened EncodingJson

  /** The `_option` record; a `nil` pointer field is `None`, `gvalue.Ptr(x)` is `Some(x)`. */
  datatype Options = Options(
    useNumber: Option<bool>,
    disableUnknownFields: Option<bool>,
    escapeHtml: Option<bool>,
    indentPrefix: Option<string>,
    indent: Option<string>)

  /** `var opt _option`: every field absent. */
  const NoOptions := Options(None, None, None, None, None)

  /**
   * The values of type `DecodeOption` the package hands out. A separate type
   * from `EncodeOption`, so that one cannot be passed for the other.
   */
  datatype DecodeOption = WithUseNumber | WithDisableUnknownFields

  /** The values of type `EncodeOption` the package hands out. */
  datatype EncodeOption = WithEscapeHtml(escape: bool) | WithIndent(prefix: string, indent: string)

  predicate SameDecodeFields(a: Options, b: Options) {
    a.useNumber == b.useNumber && a.disableUnknownFields == b.disableUnknownFields
  }

  predicate SameEncodeFields(a: Options, b: Options) {
    a.escapeHtml == b.escapeHtml && a.indentPrefix == b.indentPrefix && a.indent == b.indent
  }

  /** A prefix is never recorded without an indent, so `Encode` may read `*opt.Indent`. */
  predicate IndentInvariant(opt: Options) {
    opt.indentPrefix.Some? ==> opt.indent.Some?
  }

  // ---------------------------------------------------------------------
  // One option

  /** Calling a decode option on the record: it sets its own field to `true` and nothing else. */
  function ApplyDecode(o: DecodeOption, opt: Options): (r: Options)
    ensures o.WithUseNumber? ==> r.useNumber == Some(true) && r.disableUnknownFields == opt.disableUnknownFields
    ensures o.WithDisableUnknownFields? ==> r.disableUnknownFields == Some(true) && r.useNumber == opt.useNumber
    ensures SameEncodeFields(r, opt)
  {
    match o
    case WithUseNumber => opt.(useNumber := Some(true))
    case WithDisableUnknownFields => opt.(disableUnknownFields := Some(true))
  }

  /** Calling an encode option on the record: it sets its own fields and nothing else. */
  function ApplyEncode(o: EncodeOption, opt: Options): (r: Options)
    ensures o.WithEscapeHtml? ==>
              r.escapeHtml == Some(o.escape) && r.indentPrefix == opt.indentPrefix && r.indent == opt.indent
    ensures o.WithIndent? ==>
              r.indentPrefix == Some(o.prefix) && r.indent == Some(o.indent) && r.escapeHtml == opt.escapeHtml
    ensures SameDecodeFields(r, opt)
    ensures IndentInvariant(opt) ==> IndentInvariant(r)
  {
    match o
    case WithEscapeHtml(escape) => opt.(escapeHtml := Some(escape))
    case WithIndent(prefix, indent) => opt.(indentPrefix := Some(prefix), indent := Some(indent))
  }

  // ---------------------------------------------------------------------
  // The fold: `for _, fn := range opts { opt = fn(opt) }`

  /** The record after applying `opts` from left to right to `start`. */
  function DecodeFold(start: Options, opts: seq<DecodeOption>): (r: Options)
    ensures SameEncodeFields(r, start)
    decreases |opts|
  {
    if |opts| == 0 then start
    else ApplyDecode(opts[|opts| - 1], DecodeFold(start, opts[..|opts| - 1]))
  }

  /** The record after applying `opts` from left to right to `start`. */
  function EncodeFold(start: Options, opts: seq<EncodeOption>): (r: Options)
    ensures SameDecodeFields(r, start)
    ensures IndentInvariant(start) ==> IndentInvariant(r)
    decreases |opts|
  {
    if |opts| == 0 then start
    else ApplyEncode(opts[|opts| - 1], EncodeFold(start, opts[..|opts| - 1]))
  }

  /** Folding two lists one after the other is folding their concatenation. */
  lemma {:induction false} DecodeFoldAppend(start: Options, a: seq<DecodeOption>, b: seq<DecodeOption>)
    ensures DecodeFold(start, a + b) == DecodeFold(DecodeFold(start, a), b)
    decreases |b|
  {
    if |b| == 0 {
      assert a + b == a;
    } else {
      assert (a + b)[..|a + b| - 1] == a + b[..|b| - 1];
      DecodeFoldAppend(start, a, b[..|b| - 1]);
    }
  }

  /** Folding two lists one after the other is folding their concatenation. */
  lemma {:induction false} EncodeFoldAppend(start: Options, a: seq<EncodeOption>, b: seq<EncodeOption>)
    ensures EncodeFold(start, a + b) == EncodeFold(EncodeFold(start, a), b)
    decreases |b|
  {
    if |b| == 0 {
      assert a + b == a;
    } else {
      assert (a + b)[..|a + b| - 1] == a + b[..|b| - 1];
      EncodeFoldAppend(start, a, b[..|b| - 1]);
    }
  }

  /** From the empty record, a decode flag is set exactly when its option occurs, and never to `false`. */
  lemma {:induction false} DecodeFlagsFromOptions(opts: seq<DecodeOption>)
    ensures DecodeFold(NoOptions, opts).useNumber == (if WithUseNumber in opts then Some(true) else None)
    ensures DecodeFold(NoOptions, opts).disableUnknownFields ==
              (if WithDisableUnknownFields in opts then Some(true) else None)
    decreases |opts|
  {
    if |opts| > 0 {
      var init := opts[..|opts| - 1];
      assert opts == init + [opts[|opts| - 1]];
      DecodeFlagsFromOptions(init);
    }
  }

  /** Last write wins: the value of the last `WithEscapeHtml` is the one recorded. */
  lemma {:induction false} EscapeHtmlLastWriteWins(start: Options, opts: seq<EncodeOption>, i: nat)
    requires i < |opts| && opts[i].WithEscapeHtml?
    requires forall j :: i < j < |opts| ==> !opts[j].WithEscapeHtml?
    ensures EncodeFold(start, opts).escapeHtml == Some(opts[i].escape)
    decreases |opts|
  {
    if i < |opts| - 1 {
      var init := opts[..|opts| - 1];
      assert forall j :: i < j < |init| ==> init[j] == opts[j];
      EscapeHtmlLastWriteWins(start, init, i);
    }
  }

  /** Without any `WithEscapeHtml` the field keeps its starting value. */
  lemma {:induction false} EscapeHtmlUntouched(start: Options, opts: seq<EncodeOption>)
    requires forall j :: 0 <= j < |opts| ==> !opts[j].WithEscapeHtml?
    ensures EncodeFold(start, opts).escapeHtml == start.escapeHtml
    decreases |opts|
  {
    if |opts| > 0 {
      var init := opts[..|opts| - 1];
      assert forall j :: 0 <= j < |init| ==> init[j] == opts[j];
      EscapeHtmlUntouched(start, init);
    }
  }

  /** Last write wins: prefix and indent both come from the last `WithIndent`. */
  lemma {:induction false} IndentLastWriteWins(start: Options, opts: seq<EncodeOption>, i: nat)
    requires i < |opts| && opts[i].WithIndent?
    requires forall j :: i < j < |opts| ==> !opts[j].WithIndent?
    ensures EncodeFold(start, opts).indentPrefix == Some(opts[i].prefix)
    ensures EncodeFold(start, opts).indent == Some(opts[i].indent)
    decreases |opts|
  {
    if i < |opts| - 1 {
      var init := opts[..|opts| - 1];
      assert forall j :: i < j < |init| ==> init[j] == opts[j];
      IndentLastWriteWins(start, init, i);
    }
  }

  /** Without any `WithIndent` prefix and indent keep their starting values. */
  lemma {:induction false} IndentUntouched(start: Options, opts: seq<EncodeOption>)
    requires forall j :: 0 <= j < |opts| ==> !opts[j].WithIndent?
    ensures EncodeFold(start, opts).indentPrefix == start.indentPrefix
    ensures EncodeFold(start, opts).indent == start.indent
    decreases |opts|
  {
    if |opts| > 0 {
      var init := opts[..|opts| - 1];
      assert forall j :: 0 <= j < |init| ==> init[j] == opts[j];
      IndentUntouched(start, init);
    }
  }

  // ---------------------------------------------------------------------
  // Settings derived from the record (option.go, Decode and Encode)

  /** How `Decode` configures its `json.Decoder`: each switch on exactly when its field is `true`. */
  function DecodeSettings(opt: Options): (s: DecoderSettings)
    ensures s.disallowUnknownFields <==> opt.disableUnknownFields == Some(true)
    ensures s.useNumber <==> opt.useNumber == Some(true)
  {
    var s0 := DefaultDecoderSettings;
    var s1 := if opt.disableUnknownFields.Some? && opt.disableUnknownFields.value then s0.(disallowUnknownFields := true) else s0;
    if opt.useNumber.Some? && opt.useNumber.value then s1.(useNumber := true) else s1
  }

  /**
   * How `Encode` configures its `json.Encoder`: escaping as recorded, or the
   * encoder's default (on); indentation as recorded, or none.
   */
  function EncodeSettings(opt: Options): (s: EncoderSettings)
    requires IndentInvariant(opt)
    ensures s.escapeHtml == (if opt.escapeHtml.Some? then opt.escapeHtml.value else DefaultEncoderSettings.escapeHtml)
    ensures opt.indentPrefix.Some? ==> s.indentPrefix == opt.indentPrefix.value && s.indent == opt.indent.value
    ensures opt.indentPrefix.None? ==>
              s.indentPrefix == DefaultEncoderSettings.indentPrefix && s.indent == DefaultEncoderSettings.indent
  {
    var s0 := DefaultEncoderSettings;
    var s1 := if opt.escapeHtml.Some? then s0.(escapeHtml := opt.escapeHtml.value) else s0;
    if opt.indentPrefix.Some? then s1.(indentPrefix := opt.indentPrefix.value, indent := opt.indent.value) else s1
  }

  /** `Decode` reads only the decode fields. */
  lemma DecodeSettingsReadDecodeFieldsOnly(a: Options, b: Options)
    requires SameDecodeFields(a, b)
    ensures DecodeSettings(a) == DecodeSettings(b)
  {
  }

  /** `Encode` reads only the encode fields. */
  lemma EncodeSettingsReadEncodeFieldsOnly(a: Options, b: Options)
    requires IndentInvariant(a) && SameEncodeFields(a, b)
    ensures IndentInvariant(b) && EncodeSettings(a) == EncodeSettings(b)
  {
  }

  /** The decoder settings a list of decode options produces: a switch is on iff its option is in the list. */
  lemma DecodeOptionsSettings(opts: seq<DecodeOption>)
    ensures DecodeSettings(DecodeFold(NoOptions, opts)) ==
              DecoderSettings(WithDisableUnknownFields in opts, WithUseNumber in opts)
  {
    DecodeFlagsFromOptions(opts);
  }

  /** Decode options leave the encode fields empty, so the encoder is configured as by default. */
  lemma DecodeOptionsLeaveEncoderDefault(opts: seq<DecodeOption>)
    ensures IndentInvariant(DecodeFold(NoOptions, opts))
    ensures EncodeSettings(DecodeFold(NoOptions, opts)) == DefaultEncoderSettings
  {
  }

  /** Encode options leave the decode fields empty, so the decoder is configured as by default. */
  lemma EncodeOptionsLeaveDecoderDefault(opts: seq<EncodeOption>)
    ensures DecodeSettings(EncodeFold(NoOptions, opts)) == DefaultDecoderSettings
  {
  }
}
