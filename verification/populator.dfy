/**
 * The field populator of `config.go` (`Apply`): fold the options, check the
 * target's shape, then walk the fields in declaration order, resolving each
 * field's raw input from the environment or its default and coercing it, and
 * stop at the first error.
 *
 * Reflection is replaced by an explicit descriptor per field (the `env` and
 * `default` tags and the kind) and an array holding the fields' current values;
 * `os.Getenv` by a read-only map in which an absent name reads as "".
 */
module Populator {
  import opened Wrappers
  import opened Coercer

  /** The static description of one struct field: its `env` tag, its `default` tag and its kind. */
  datatype Field = Field(envName: string, default: string, kind: Kind)

  /** The shape of the value handed to `Apply`. */
  datatype Target =
    | NotPointer
    | PointerToNonStruct
    | PointerToStruct(fields: seq<Field>)

  type Environment = map<string, string>

  /** `os.Getenv`: a set variable reads as its value, an unset one as the empty string. */
  function Getenv(env: Environment, name: string): (value: string)
    ensures name in env ==> value == env[name]
    ensures name !in env ==> value == ""
  {
    if name in env then env[name] else ""
  }

  datatype Options = Options(errorOnMissing: bool)

  /** The option constructors of the package; `WithErrorOnMissing` is the only one. */
  datatype ConfigOption = SetErrorOnMissing {
    /** Running the option on the options being built. */
    function Run(opt: Options): (r: Options)
      ensures r.errorOnMissing
    {
      match this
      case SetErrorOnMissing => opt.(errorOnMissing := true)
    }
  }

  /** The option that turns missing variables into errors, whatever options came before it. */
  function WithErrorOnMissing(): (o: ConfigOption)
    ensures forall opt: Options :: o.Run(opt).errorOnMissing
  {
    SetErrorOnMissing
  }

  /** The errors `Apply` returns. A `ParseError` wraps the coercer's failure with the variable name. */
  datatype ApplyError =
    | TargetNotPointer
    | TargetNotStruct
    | MissingVariable(envName: string)
    | ParseError(envName: string, cause: ParseFailure)

  /** The options `Apply` builds from its variadic option arguments, starting from the zero value. */
  method BuildOptions(options: seq<ConfigOption>) returns (opt: Options)
    ensures opt.errorOnMissing <==> WithErrorOnMissing() in options
  {
    opt := Options(false);
    for i := 0 to |options|
      invariant opt.errorOnMissing <==> WithErrorOnMissing() in options[..i]
    {
      assert options[..i + 1] == options[..i] + [options[i]];
      assert options[i] == WithErrorOnMissing();
      opt := options[i].Run(opt);
    }
    assert options[..|options|] == options;
  }

  /** The raw input of a field: its environment value if non-empty, else its default. */
  function RawInput(env: Environment, f: Field): (raw: string)
    ensures raw == "" <==> Getenv(env, f.envName) == "" && f.default == ""
    ensures Getenv(env, f.envName) != "" ==> raw == Getenv(env, f.envName)
    ensures raw in {Getenv(env, f.envName), f.default}
  {
    var fromEnv := Getenv(env, f.envName);
    if fromEnv == "" then f.default else fromEnv
  }

  /** What one iteration of the field loop does to one field. */
  datatype Step = Skip | Write(value: Value) | Fail(error: ApplyError)

  /** The decision the field loop makes for field `f`. */
  function FieldStep(f: Field, env: Environment, opt: Options, lib: Library): (s: Step)
    ensures s.Write? ==> f.envName != "" && RawInput(env, f) != "" && ApplyValue(f.kind, RawInput(env, f), lib) == Success(s.value)
    ensures s.Fail? ==> f.envName != "" && (s.error.MissingVariable? || s.error.ParseError?) && s.error.envName == f.envName
    ensures s.Fail? && s.error.ParseError? ==> ApplyValue(f.kind, RawInput(env, f), lib) == Failure(s.error.cause)
    ensures s.Fail? && s.error.MissingVariable? ==> opt.errorOnMissing && RawInput(env, f) == ""
    ensures f.envName != "" && RawInput(env, f) != "" && ApplyValue(f.kind, RawInput(env, f), lib).Success? ==>
      s == Write(ApplyValue(f.kind, RawInput(env, f), lib).value)
  {
    if f.envName == "" then Skip
    else
      var raw := RawInput(env, f);
      if opt.errorOnMissing && raw == "" then Fail(MissingVariable(f.envName))
      else if raw == "" then Skip
      else
        match ApplyValue(f.kind, raw, lib)
        case Success(v) => Write(v)
        case Failure(e) => Fail(ParseError(f.envName, e))
  }

  /** The value a field holds after its step, if the step does not fail. */
  function After(s: Step, previous: Value): Value {
    if s.Write? then s.value else previous
  }

  datatype Outcome = Outcome(values: seq<Value>, err: Option<ApplyError>)

  /** The field loop from field `i` on, over the values `vals` the fields hold when it gets there. */
  function PopulateFrom(fields: seq<Field>, vals: seq<Value>, i: nat, env: Environment, opt: Options, lib: Library): (r: Outcome)
    requires |vals| == |fields| && i <= |fields|
    ensures |r.values| == |vals|
    ensures forall j :: 0 <= j < i ==> r.values[j] == vals[j]
    decreases |fields| - i
  {
    if i == |fields| then Outcome(vals, None)
    else
      match FieldStep(fields[i], env, opt, lib)
      case Skip => PopulateFrom(fields, vals, i + 1, env, opt, lib)
      case Write(v) => PopulateFrom(fields, vals[i := v], i + 1, env, opt, lib)
      case Fail(e) => Outcome(vals, Some(e))
  }

  /** The whole field loop of `Apply` for a struct whose fields hold `vals`. */
  function Populate(fields: seq<Field>, vals: seq<Value>, env: Environment, opt: Options, lib: Library): (r: Outcome)
    requires |vals| == |fields|
    ensures |r.values| == |fields|
    ensures r.err.None? <==> NoFailureFrom(fields, 0, env, opt, lib)
  {
    PopulateFromSuccess(fields, vals, 0, env, opt, lib);
    PopulateFrom(fields, vals, 0, env, opt, lib)
  }

  /**
   * `Apply`. A target that is not a pointer to a struct is refused before any
   * field is looked at; otherwise the fields are processed in place, and the
   * values they end with and the error returned are those of `Populate`.
   */
  method Apply(target: Target, values: array<Value>, env: Environment, options: seq<ConfigOption>, lib: Library)
    returns (err: Option<ApplyError>)
    requires target.PointerToStruct? ==> |target.fields| == values.Length
    modifies values
    ensures target.NotPointer? ==> err == Some(TargetNotPointer) && values[..] == old(values[..])
    ensures target.PointerToNonStruct? ==> err == Some(TargetNotStruct) && values[..] == old(values[..])
    ensures target.PointerToStruct? ==>
      var r := Populate(target.fields, old(values[..]), env, Options(WithErrorOnMissing() in options), lib);
      values[..] == r.values && err == r.err
  {
    var opt := BuildOptions(options);
    if target.NotPointer? {
      return Some(TargetNotPointer);
    }
    if target.PointerToNonStruct? {
      return Some(TargetNotStruct);
    }
    var fields := target.fields;
    ghost var goal := Populate(fields, values[..], env, opt, lib);
    var i := 0;
    while i < |fields|
      invariant 0 <= i <= |fields|
      invariant PopulateFrom(fields, values[..], i, env, opt, lib) == goal
    {
      var f := fields[i];
      if f.envName == "" {
        i := i + 1;
        continue;
      }
      var raw := Getenv(env, f.envName);
      if raw == "" {
        raw := f.default;
      }
      if opt.errorOnMissing && raw == "" {
        return Some(MissingVariable(f.envName));
      }
      if raw != "" {
        var r := ApplyValue(f.kind, raw, lib);
        if r.Failure? {
          return Some(ParseError(f.envName, r.error));
        }
        values[i] := r.value;
      }
      i := i + 1;
    }
    return None;
  }

  // ---------------------------------------------------------------- one field

  /** A field without an `env` tag is never examined, whatever its kind. */
  lemma UntaggedFieldSkipped(f: Field, env: Environment, opt: Options, lib: Library)
    requires f.envName == ""
    ensures FieldStep(f, env, opt, lib) == Skip
  {
  }

  /** A non-empty environment value wins: the default is then irrelevant. */
  lemma EnvironmentOverridesDefault(f: Field, otherDefault: string, env: Environment, opt: Options, lib: Library)
    requires Getenv(env, f.envName) != ""
    ensures FieldStep(f, env, opt, lib) == FieldStep(f.(default := otherDefault), env, opt, lib)
  {
  }

  /** With the variable unset or empty, the default behaves exactly as if it were the environment value. */
  lemma DefaultStandsInForEnvironment(f: Field, env: Environment, opt: Options, lib: Library)
    requires Getenv(env, f.envName) == ""
    ensures FieldStep(f, env, opt, lib) == FieldStep(f.(default := ""), env[f.envName := f.default], opt, lib)
  {
  }

  /** An empty raw input is an error naming the variable under `errorOnMissing`, and leaves the field alone otherwise. */
  lemma MissingInput(f: Field, env: Environment, opt: Options, lib: Library)
    requires f.envName != "" && RawInput(env, f) == ""
    ensures FieldStep(f, env, opt, lib) == if opt.errorOnMissing then Fail(MissingVariable(f.envName)) else Skip
  {
  }

  /**
   * A field is written only when it is tagged and its raw input is non-empty,
   * and then with a value that fits its kind; a failure for such a field is a
   * parse error naming the variable.
   */
  lemma StepWritesFittingValue(f: Field, env: Environment, opt: Options, lib: Library)
    ensures f.envName != "" && RawInput(env, f) != "" && ApplyValue(f.kind, RawInput(env, f), lib).Success? ==>
      FieldStep(f, env, opt, lib) == Write(ApplyValue(f.kind, RawInput(env, f), lib).value)
    ensures FieldStep(f, env, opt, lib).Write? ==>
      && f.envName != "" && RawInput(env, f) != ""
      && ApplyValue(f.kind, RawInput(env, f), lib) == Success(FieldStep(f, env, opt, lib).value)
      && Fits(f.kind, FieldStep(f, env, opt, lib).value)
    ensures f.envName != "" && RawInput(env, f) != "" ==>
      (FieldStep(f, env, opt, lib).Fail? <==> ApplyValue(f.kind, RawInput(env, f), lib).Failure?)
  {
  }

  /**
   * An unsupported kind goes unnoticed while its raw input is empty and
   * `errorOnMissing` is off; with a raw input it fails as a parse error.
   */
  lemma UnsupportedKindDetectedLate(f: Field, env: Environment, opt: Options, lib: Library)
    requires f.envName != "" && (f.kind.OtherInt64? || f.kind.OtherSlice? || f.kind.Unexpected?)
    ensures RawInput(env, f) == "" && !opt.errorOnMissing ==> FieldStep(f, env, opt, lib) == Skip
    ensures RawInput(env, f) != "" ==>
      FieldStep(f, env, opt, lib).Fail? && FieldStep(f, env, opt, lib).error.ParseError?
  {
  }

  // ---------------------------------------------------------------- the field loop

  /** No field from `i` on fails. */
  ghost predicate NoFailureFrom(fields: seq<Field>, i: nat, env: Environment, opt: Options, lib: Library) {
    forall j :: i <= j < |fields| ==> !FieldStep(fields[j], env, opt, lib).Fail?
  }

  /** Field `k` is the first one from `i` on that fails. */
  ghost predicate FirstFailureFrom(fields: seq<Field>, i: nat, k: nat, env: Environment, opt: Options, lib: Library) {
    i <= k < |fields| && FieldStep(fields[k], env, opt, lib).Fail? &&
    forall j :: i <= j < k ==> !FieldStep(fields[j], env, opt, lib).Fail?
  }

  lemma {:induction false} PopulateFromSuccess(fields: seq<Field>, vals: seq<Value>, i: nat, env: Environment, opt: Options, lib: Library)
    requires |vals| == |fields| && i <= |fields|
    ensures var r := PopulateFrom(fields, vals, i, env, opt, lib);
      && |r.values| == |vals|
      && (r.err.None? <==> NoFailureFrom(fields, i, env, opt, lib))
      && (r.err.None? ==>
            forall j :: i <= j < |fields| ==> r.values[j] == After(FieldStep(fields[j], env, opt, lib), vals[j]))
    decreases |fields| - i
  {
    if i < |fields| {
      var s := FieldStep(fields[i], env, opt, lib);
      if !s.Fail? {
        var next := if s.Write? then vals[i := s.value] else vals;
        PopulateFromSuccess(fields, next, i + 1, env, opt, lib);
      }
    }
  }

  lemma {:induction false} PopulateFromFailure(fields: seq<Field>, vals: seq<Value>, i: nat, k: nat, env: Environment, opt: Options, lib: Library)
    requires |vals| == |fields| && FirstFailureFrom(fields, i, k, env, opt, lib)
    ensures var r := PopulateFrom(fields, vals, i, env, opt, lib);
      && |r.values| == |vals|
      && r.err == Some(FieldStep(fields[k], env, opt, lib).error)
      && (forall j :: i <= j < k ==> r.values[j] == After(FieldStep(fields[j], env, opt, lib), vals[j]))
      && (forall j :: k <= j < |fields| ==> r.values[j] == vals[j])
    decreases |fields| - i
  {
    var s := FieldStep(fields[i], env, opt, lib);
    if i < k {
      var next := if s.Write? then vals[i := s.value] else vals;
      assert FirstFailureFrom(fields, i + 1, k, env, opt, lib);
      PopulateFromFailure(fields, next, i + 1, k, env, opt, lib);
    }
  }

  /** `Apply` succeeds exactly when no field fails, and then every field holds the result of its own step. */
  lemma PopulateSucceeds(fields: seq<Field>, vals: seq<Value>, env: Environment, opt: Options, lib: Library)
    requires |vals| == |fields|
    ensures var r := Populate(fields, vals, env, opt, lib);
      && (r.err.None? <==> NoFailureFrom(fields, 0, env, opt, lib))
      && (r.err.None? ==>
            && |r.values| == |vals|
            && forall j :: 0 <= j < |fields| ==> r.values[j] == After(FieldStep(fields[j], env, opt, lib), vals[j]))
  {
    PopulateFromSuccess(fields, vals, 0, env, opt, lib);
  }

  /**
   * Fail-fast: when field `k` is the first to fail, `Apply` returns its error;
   * the fields before it hold their coerced values and it and all later fields
   * are unchanged.
   */
  lemma PopulateFailsFast(fields: seq<Field>, vals: seq<Value>, k: nat, env: Environment, opt: Options, lib: Library)
    requires |vals| == |fields| && FirstFailureFrom(fields, 0, k, env, opt, lib)
    ensures var r := Populate(fields, vals, env, opt, lib);
      && r.err == Some(FieldStep(fields[k], env, opt, lib).error)
      && |r.values| == |vals|
      && (forall j :: 0 <= j < k ==> r.values[j] == After(FieldStep(fields[j], env, opt, lib), vals[j]))
      && (forall j :: k <= j < |fields| ==> r.values[j] == vals[j])
  {
    PopulateFromFailure(fields, vals, 0, k, env, opt, lib);
  }

  /** Some field is the first to fail whenever `Apply` reports an error. */
  lemma {:induction false} FirstFailureExists(fields: seq<Field>, i: nat, env: Environment, opt: Options, lib: Library)
    requires i <= |fields| && !NoFailureFrom(fields, i, env, opt, lib)
    ensures exists k: nat :: FirstFailureFrom(fields, i, k, env, opt, lib)
    decreases |fields| - i
  {
    if FieldStep(fields[i], env, opt, lib).Fail? {
      assert FirstFailureFrom(fields, i, i, env, opt, lib);
    } else {
      FirstFailureExists(fields, i + 1, env, opt, lib);
      var k: nat :| FirstFailureFrom(fields, i + 1, k, env, opt, lib);
      assert FirstFailureFrom(fields, i, k, env, opt, lib);
    }
  }

  /** Running `Apply` a second time over its own result changes nothing and reports the same outcome. */
  lemma PopulateIdempotent(fields: seq<Field>, vals: seq<Value>, env: Environment, opt: Options, lib: Library)
    requires |vals| == |fields|
    ensures var r := Populate(fields, vals, env, opt, lib);
      |r.values| == |fields| && Populate(fields, r.values, env, opt, lib) == r
  {
    var r := Populate(fields, vals, env, opt, lib);
    var r2 := Populate(fields, r.values, env, opt, lib);
    if NoFailureFrom(fields, 0, env, opt, lib) {
      PopulateSucceeds(fields, vals, env, opt, lib);
      PopulateSucceeds(fields, r.values, env, opt, lib);
      assert r2.values == r.values;
    } else {
      FirstFailureExists(fields, 0, env, opt, lib);
      var k: nat :| FirstFailureFrom(fields, 0, k, env, opt, lib);
      PopulateFailsFast(fields, vals, k, env, opt, lib);
      PopulateFailsFast(fields, r.values, k, env, opt, lib);
      assert r2.values == r.values;
    }
  }

  /** The outcome does not depend on what the written fields held before: two targets that differ only there end equal. */
  lemma PopulateOverwrites(fields: seq<Field>, vals1: seq<Value>, vals2: seq<Value>, env: Environment, opt: Options, lib: Library)
    requires |vals1| == |fields| == |vals2|
    requires NoFailureFrom(fields, 0, env, opt, lib)
    requires forall j :: 0 <= j < |fields| && !FieldStep(fields[j], env, opt, lib).Write? ==> vals1[j] == vals2[j]
    ensures Populate(fields, vals1, env, opt, lib) == Populate(fields, vals2, env, opt, lib)
  {
    PopulateSucceeds(fields, vals1, env, opt, lib);
    PopulateSucceeds(fields, vals2, env, opt, lib);
    assert Populate(fields, vals1, env, opt, lib).values == Populate(fields, vals2, env, opt, lib).values;
  }
}
