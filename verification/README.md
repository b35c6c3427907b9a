# envconfig: a Dafny model of the environment-to-struct binder

`envconfig` fills the fields of a Go configuration struct from environment
variables. Each field carries an `env` tag that names its variable and an
optional `default` tag. `Apply` works in two layers:

- the **value coercer** (`setInt`, `setDuration`, `setBool`, `setByteArray`,
  the string case and the `applyValue` dispatch) turns one raw string into one
  typed field value, or fails and leaves the field unwritten;
- the **field populator** (`Apply`) builds the options, checks that the target
  is a pointer to a struct, and then walks the fields in declaration order. For
  each field it resolves the raw input: the environment value if it is
  non-empty, else the default. It then applies the missing-value policy and
  coerces the input. It stops at the first error.

The model has these files:

- `wrappers.dfy`: `Option` and `Result`.
- `strconv.dfy`: the parts of Go's `strconv` and integer arithmetic the coercer
  depends on. `ParseInt64` is `strconv.ParseInt(s, 10, 64)`, an optional sign
  then decimal digits within the int64 range. It is implemented as a
  left-to-right digit scan with an early range cut-off and proved equal to the
  grammar and value of a decimal literal. `FormatInt` is a right inverse of
  `ParseInt64` on the int64 range: parsing the canonical form of an int64 gives
  it back. Non-canonical inputs such as `"+7"` or `"007"` parse, but formatting
  their value does not give back the same text. `Wrap` is two's-complement
  wrap-around at a given width.
- `coercer.dfy`: field kinds, field values and parse failures; the functions
  `ParseInt` (`setInt`), `ParseDuration` (`setDuration`) and `ParseBool`
  (`setBool`); and the dispatch `ApplyValue`. `setFloat` (config.go:84-92) and
  `setByteArray` (config.go:110-117) are match arms of `ApplyValue` over the
  library decoders. Every coercion returns a `Result`, and a `Success` is the
  single write the source makes through the reflected field.
- `populator.dfy`: field descriptors, options, the target's shape and
  `Apply`. `Apply` is a method that updates an `array<Value>` (the struct's
  fields) in place. It is proved equal to the reference function `Populate`,
  and the fail-fast, skip and idempotence properties are lemmas about
  `Populate`.
- `vectors.dfy`: the concrete cases of `config_test.go`, plus the quirks of
  the duration grammar and of Go's silent wrap-around.

Reflection is replaced by explicit inputs. Each struct field becomes a
`Field(envName, default, kind)` descriptor. The field values are an array.
The target's shape is a `Target` value: not a pointer, a pointer to a
non-struct, or a pointer to a struct with its fields. `os.Getenv` becomes a
read-only `map<string, string>` in which an absent name reads as `""`.
`strconv.ParseFloat` and `base64.StdEncoding.DecodeString` are library code
that this model does not contain. They are passed in as total functions, in a
`Library` value, that return `None` on a decode error.

Four behaviours of the code are worth stating on their own:

- Every integer kind is parsed as int64 (config.go:75), and
  `reflect.Value.SetInt` truncates into a narrower field. So `"300"` in an
  `int8` field stores 44 (`Vectors.NarrowFieldTruncates`).
- An all-digit duration such as `"5"` leaves both parts of the split empty
  (config.go:35-41). Its failure comes from `strconv.ParseInt("")`, and the
  model reports `NotAnInteger("")`.
- An unsupported field kind is an error returned by `applyValue`, so `Apply`
  wraps it as a parse error for that variable (config.go:203-205). It is found
  only when the field's raw input is non-empty
  (`Populator.UnsupportedKindDetectedLate`).
- Duration multiplication wraps silently, as Go int64 arithmetic does
  (config.go:49-65). `"15250w"` is exact and `"15251w"` is a negative duration
  (`Vectors.DurationWrapsSilently`).

## Model

| member | source | states |
|---|---|---|
| StrConv.ScanDigits | config.go:75 | the digit scan returns a value exactly when the whole string is digits whose value is within the limit, and then returns that value |
| StrConv.ParseInt64 | config.go:75 | base-10 int64 parse: succeeds exactly for an optional sign followed by at least one digit whose value lies in [-2^63, 2^63-1], and yields that value |
| StrConv.NatDigits | config.go:75 | the canonical digits of n are a non-empty digit string denoting n |
| StrConv.ParseFormatRoundTrip | config.go:75 | every int64 survives a round trip through its canonical decimal form |
| StrConv.DigitsValuePrefix | config.go:75 | a prefix of a digit string never denotes more than the whole string (why an early range cut-off is sound) |
| StrConv.Wrap | config.go:80 | the stored value lies in the width's signed range, is congruent to the mathematical value modulo 2^width, and equals it when it fits |
| StrConv.Wrap64 | config.go:49-65 | int64 multiplication yields the value in int64 range congruent to the exact product modulo 2^64, so it wraps rather than saturates, and equals the product whenever that fits |
| Coercer.UnitNanos | config.go:49-68 | exactly the eight case-sensitive tokens h, m, s, ms, us, ns, d, w have a length, and every length is positive |
| Coercer.FirstNonDigit | config.go:35-41 | the scan stops at the first byte outside '0'..'9', or at the end if there is none |
| Coercer.SplitDuration | config.go:33-41 | the magnitude part is all digits and the unit part is empty or starts with a non-digit; the two parts rebuild the input, or both are empty when the input has no non-digit |
| Coercer.ParseDuration | config.go:32-72 | a successful duration is an int64 nanosecond count |
| Coercer.DurationSplitIsUnique | config.go:35-41 | a string of digits then a unit token has only one split, the one the scan finds |
| Coercer.DurationAccepted | config.go:32-72 | a duration succeeds if and only if the input is a non-empty int64-sized digit run followed by exactly one of the eight unit tokens |
| Coercer.DurationValue | config.go:49-65 | digits n followed by a unit give exactly n times the unit's nanoseconds (1 ns, 1 µs, 1 ms, 1 s, 60 s, 3600 s, 24 h, 168 h), wrapped to int64 |
| Coercer.DurationNeedsLeadingDigit | config.go:35-45 | an input that is empty or starts with a non-digit (a sign included) fails in the integer parse of an empty magnitude |
| Coercer.DurationNeedsUnit | config.go:35-45 | an all-digit input has no unit and fails in the integer parse of an empty magnitude |
| Coercer.DurationUnknownUnit | config.go:66-67 | after a valid magnitude, any token other than the eight units (compound, upper-case, plural) fails naming that token |
| Coercer.DurationMagnitudeOverflow | config.go:42-45 | a magnitude beyond int64 fails in the integer parse before the unit is examined |
| Coercer.AsciiLower | config.go:96 | lower-casing keeps the length and lower-cases each ASCII letter, leaving other characters alone |
| Coercer.ParseBool | config.go:94-108 | succeeds exactly when the lower-cased input is one of t, true, 1, f, false, 0; the value is true exactly for the first three; any other input is the not-a-boolean failure |
| Coercer.BoolIgnoresCase | config.go:96-104 | two inputs that differ only in ASCII letter case parse identically |
| Coercer.ParseInt | config.go:74-82 | setInt succeeds exactly on an int64 decimal literal, yielding its value, and otherwise fails naming the input |
| Coercer.ApplyValue | config.go:120-162 | a successful coercion yields a value of the field's own shape and width; a string field receives the raw string unchanged; an integer field succeeds exactly when setInt's int64 parse does, and receives that value truncated to the field's width; a duration, bool or float field succeeds exactly when setDuration, setBool or ParseFloat accepts the input, and receives exactly the value it yields; every failure is the coercer's own (setInt's or setDuration's error, not-a-boolean, not-a-float naming the input, not-base64), and int64-kinds other than int64 and time.Duration, slices other than []byte and every other kind fail with their own unsupported-type error |
| Coercer.UnsupportedKindsFail | config.go:125-158 | int64-kinds other than int64 and time.Duration, slices other than []byte, and every other kind never receive a value |
| Coercer.IntegerKindsShareParse | config.go:123-140 | int, int8, int16, int32 and int64 accept and reject the same strings, with the same failure |
| Coercer.IntegerStored | config.go:74-82 | an accepted integer is an int64 literal, stored truncated to the field's width, and stored exactly when it fits that width |
| Coercer.IntegerRoundTrip | config.go:123-140 | for every integer kind, the canonical decimal form of a value that fits the field is stored unchanged |
| Coercer.BytesDecoded | config.go:110-117 | a []byte field receives the standard-base64 decoding of its input, and a decode error is the not-base64 failure |
| Populator.Getenv | config.go:194 | a set variable reads as its value, and an unset one as the empty string |
| Populator.ConfigOption.Run | config.go:26-30 | running the WithErrorOnMissing option sets errorOnMissing, whatever the options were before |
| Populator.WithErrorOnMissing | config.go:26-30 | the option it returns turns errorOnMissing on for every options value |
| Populator.BuildOptions | config.go:164-168 | errorOnMissing is set exactly when WithErrorOnMissing is among the options |
| Populator.RawInput | config.go:192-197 | the raw input is the environment value when that is non-empty and otherwise the default; it is empty exactly when both are |
| Populator.FieldStep | config.go:186-207 | a tagged field with a non-empty raw input whose coercion succeeds is written with the value it yields, and a field is written in no other case; a failure names the field's variable and is either the coercion's own failure or, under errorOnMissing, a missing empty raw input |
| Populator.PopulateFrom | config.go:183-211 | the field loop keeps the number of fields and never touches a field it has already passed |
| Populator.Populate | config.go:183-211 | the field loop keeps one value per field and succeeds exactly when no field fails |
| Populator.Apply | config.go:164-212 | a non-pointer target, or a pointer to a non-struct, is refused with its own error and no field changes; otherwise the fields end, in place, with the values and error of Populate |
| Populator.UntaggedFieldSkipped | config.go:187-190 | a field with an empty env tag is skipped whatever its kind |
| Populator.EnvironmentOverridesDefault | config.go:192-197 | a non-empty environment value makes the default irrelevant |
| Populator.DefaultStandsInForEnvironment | config.go:192-197 | with the variable unset or empty, the default acts exactly as if it were the environment value |
| Populator.MissingInput | config.go:199-208 | an empty raw input is a missing-variable error naming the variable under errorOnMissing, and a skip otherwise |
| Populator.StepWritesFittingValue | config.go:199-207 | a tagged field with a non-empty raw input whose coercion succeeds is written; a field is written only in that case, with exactly the value its coercion yields, which fits its kind; such a field fails exactly when its coercion fails |
| Populator.UnsupportedKindDetectedLate | config.go:199-206 | an unsupported kind goes unnoticed while its raw input is empty (errorOnMissing off), and with a raw input it fails as a parse error |
| Populator.PopulateFromSuccess | config.go:183-211 | from any field on, the loop succeeds exactly when no later field fails, each field then holding the result of its own step |
| Populator.PopulateFromFailure | config.go:183-209 | from any field on, the first failing field's error is returned, the fields before it hold their coerced values, and it and all later fields are unchanged |
| Populator.PopulateSucceeds | config.go:183-211 | Apply succeeds exactly when no field fails, and then only fields with a non-empty raw input are written, each with its coerced value |
| Populator.PopulateFailsFast | config.go:183-209 | the first error in declaration order is returned; earlier fields hold their coerced values; the failing and all later fields are unchanged |
| Populator.FirstFailureExists | config.go:183-209 | whenever some field fails there is a first one in declaration order |
| Populator.PopulateIdempotent | config.go:183-211 | applying a second time to the result changes nothing and returns the same outcome |
| Populator.PopulateOverwrites | config.go:183-211 | on success, the outcome depends only on the previous values of the fields that are not written |
| Vectors.NonCanonicalInteger | config.go:74-82 | the in-range non-canonical literals "+007" and "0100" are accepted, storing 7 in an int8 field and 100 in an int64 field |
| Vectors.IntegerDefaults | config_test.go:10-53 | a default of "100" binds 100 into a field of every integer kind |
| Vectors.StringDefault | config_test.go:73-80 | a string field receives its default "hello" |
| Vectors.BoolSpellings | config_test.go:82-134 | through Apply, a bool field defaulting to t, tRue or 1 ends true, and one defaulting to F, False or 0 ends false, with no error |
| Vectors.BoolDefaultRejected | config_test.go:136-142 | a default of "boof" fails the call with a parse error naming EC_ENABLE and leaves the field unchanged |
| Vectors.DurationWeekDefault | config_test.go:144-151 | "3w" is 3·7·24 hours, and through Apply a time.Duration field defaulting to it ends holding that many nanoseconds, with no error |
| Vectors.DurationDayDefault | config_test.go:153-160 | "2d" is 2·24 hours, and through Apply a time.Duration field defaulting to it ends holding that many nanoseconds, with no error |
| Vectors.DurationHourDefault | config_test.go:162-169 | "2h" is 2 hours, and through Apply a time.Duration field defaulting to it ends holding that many nanoseconds, with no error |
| Vectors.DurationMinuteDefault | config_test.go:171-178 | "2m" is 2 minutes, and through Apply a time.Duration field defaulting to it ends holding that many nanoseconds, with no error |
| Vectors.DurationSecondDefault | config_test.go:180-187 | "2s" is 2 seconds, and through Apply a time.Duration field defaulting to it ends holding that many nanoseconds, with no error |
| Vectors.DurationMillisecondDefault | config_test.go:189-196 | "2ms" is 2 milliseconds, and through Apply a time.Duration field defaulting to it ends holding that many nanoseconds, with no error |
| Vectors.DurationMicrosecondDefault | config_test.go:198-205 | "2us" is 2 microseconds, and through Apply a time.Duration field defaulting to it ends holding that many nanoseconds, with no error |
| Vectors.DurationNanosecondDefault | config_test.go:207-214 | "2ns" is 2 nanoseconds, and through Apply a time.Duration field defaulting to it ends holding that many nanoseconds, with no error |
| Vectors.DurationWithoutMagnitude | config.go:35-45 | "5", "-5s" and "+5s" fail in the integer parse of an empty magnitude |
| Vectors.DurationUnknownUnits | config.go:49-67 | "1h30m", "2H" and "2 s" fail as unknown units h30m, H and " s" |
| Vectors.DurationLargestWeeks | config.go:64-65 | "15250w", the most whole weeks that fit int64, is exact |
| Vectors.DurationWrapsSilently | config.go:64-65 | "15251w" wraps to a negative nanosecond count |
| Vectors.NarrowFieldTruncates | config.go:74-82 | "300" stores 44 in an int8 field and 300 in an int16 field |
| Vectors.MissingWithoutDefault | config_test.go:216-222 | a field with no value and no default fails naming its variable under WithErrorOnMissing, and is left unchanged without it |
| Vectors.EnvironmentValueBound | config_test.go:224-231 | a variable set in the environment satisfies WithErrorOnMissing and is bound |
| Vectors.ByteArrayDefault | config_test.go:233-239 | a []byte field receives the decoding of "c2lsbHkgd2FiYml0", given a decoder that maps it to "silly wabbit" |
| Vectors.FailFastOrder | config.go:183-209 | a valid field declared before a missing required one is bound before the call fails on the second |

## Left out

- Float fields: `strconv.ParseFloat` is a parameter of the model (`Library.parseFloat`) and its result is an idealised `real`. The rounding to `float32` in `reflect.Value.SetFloat` is not modelled.
- Base64: `base64.StdEncoding.DecodeString` is a parameter (`Library.decodeBase64`). The model only pins it down by the test vector, in the requires clause of `Vectors.ByteArrayDefault`.
- Reflection and struct-tag discovery are replaced by the `Field` descriptors and the `Target` shape. A nil target, on which reflection panics, is not modelled.
- Unexported fields: a `Field` descriptor stands for an exported struct field only. In the source, a tagged unexported field of a supported kind with a non-empty raw input panics in `reflect`: int64-kind and slice fields in `fv.Interface()` before any parse (config.go:126, 150), string fields in `SetString` (config.go:146), and the others in `SetInt`, `SetFloat` or `SetBool` after a successful parse (config.go:80, 90, 106). The model writes such a field instead. A tagged unexported field of an unsupported kind reaches the `default` arm (config.go:157-158), where `fv.Kind()` does not panic, and fails with the unexpected-field-type error as in the model.
- `os.Getenv` is a read-only map argument. The process environment itself is not modelled.
- Error message text and `%w` wrapping: errors are datatypes that carry the variable name and the reason.
- StrConv.ParseInt64: Go's separate syntax and range errors are merged into one failure, and so is the order in which `strconv` reports them.
- Integer width: `int` is taken to be 64 bits wide, as on 64-bit platforms. Unsigned kinds, maps, structs and the like are `Unexpected`, with only their kind name.
- Coercer.AsciiLower: Go's `strings.ToLower` is Unicode-aware and works on bytes. Strings are sequences of characters here, and only ASCII letters are lowered. No non-ASCII character lowers into the boolean vocabulary, so acceptance is the same.
- Populator.BuildOptions: options are the package's own `WithErrorOnMissing`. Option functions written by callers are not modelled; outside the package they can only overwrite the whole `Options` value.
- The unused `EnvConfigOption` interface (config.go:13-16) declares no behaviour and is not part of this model.
