/**
 * The concrete cases of `config_test.go`, plus the quirks of the duration
 * grammar and of Go's silent integer wrap-around, stated against the model.
 * Each binding case is a struct with a single field and an environment that
 * does not set its variable, unless the case says otherwise.
 */
module Vectors {
  import opened Wrappers
  import opened StrConv
  import opened Coercer
  import opened Populator

  const NoEnv: Environment := map[]
  const Lenient: Options := Options(false)
  const Strict: Options := Options(true)

  /** "silly wabbit" as bytes. */
  const SillyWabbit: seq<byte> := [0x73, 0x69, 0x6c, 0x6c, 0x79, 0x20, 0x77, 0x61, 0x62, 0x62, 0x69, 0x74]

  /** The digit string `s` spells `n`. */
  lemma Digits(s: string, n: nat)
    requires NatDigits(n) == s
    ensures AllDigits(s) && DigitsValue(s) == n
  {
  }

  /** A single field whose step writes `v` ends holding `v`, and the call succeeds. */
  lemma SingleFieldWrite(f: Field, initial: Value, env: Environment, opt: Options, lib: Library, v: Value)
    requires FieldStep(f, env, opt, lib) == Write(v)
    ensures Populate([f], [initial], env, opt, lib) == Outcome([v], None)
  {
    assert [initial][0 := v] == [v];
    assert PopulateFrom([f], [initial], 0, env, opt, lib) == PopulateFrom([f], [v], 1, env, opt, lib);
  }

  /** A non-canonical literal in range is accepted: "+007" stores 7, even in an int8 field. */
  lemma NonCanonicalInteger(lib: Library)
    ensures ApplyValue(Int8, "+007", lib) == Success(IntValue(7))
    ensures ApplyValue(Int64, "0100", lib) == Success(IntValue(100))
  {
    assert Unsigned("+007") == "007";
    assert DigitsValue("007") == 7 by {
      assert "007"[..2] == "00" && "00"[..1] == "0";
    }
    assert DigitsValue("0100") == 100 by {
      assert "0100"[..3] == "010" && "010"[..2] == "01" && "01"[..1] == "0";
    }
  }

  /** A default of "100" binds 100 into a field of every integer kind. */
  lemma IntegerDefaults(kind: Kind, lib: Library)
    requires kind.IsInteger()
    ensures Populate([Field("EC_INTERVAL", "100", kind)], [IntValue(0)], NoEnv, Lenient, lib)
      == Outcome([IntValue(100)], None)
  {
    assert FormatInt(100) == "100" by { assert NatDigits(10) == "10"; }
    IntegerRoundTrip(kind, 100, lib);
    SingleFieldWrite(Field("EC_INTERVAL", "100", kind), IntValue(0), NoEnv, Lenient, lib, IntValue(100));
  }

  /** A string field receives its default unchanged. */
  lemma StringDefault(lib: Library)
    ensures Populate([Field("EC_NAME", "hello", String)], [StringValue("")], NoEnv, Lenient, lib)
      == Outcome([StringValue("hello")], None)
  {
  }

  /** The boolean defaults of the tests bind into a bool field: "t", "tRue" and "1" as true, "F", "False" and "0" as false. */
  lemma BoolSpellings(lib: Library)
    ensures Populate([Field("EC_ENABLE", "t", Bool)], [BoolValue(false)], NoEnv, Lenient, lib) == Outcome([BoolValue(true)], None)
    ensures Populate([Field("EC_ENABLE", "tRue", Bool)], [BoolValue(false)], NoEnv, Lenient, lib) == Outcome([BoolValue(true)], None)
    ensures Populate([Field("EC_ENABLE", "1", Bool)], [BoolValue(false)], NoEnv, Lenient, lib) == Outcome([BoolValue(true)], None)
    ensures Populate([Field("EC_ENABLE", "F", Bool)], [BoolValue(true)], NoEnv, Lenient, lib) == Outcome([BoolValue(false)], None)
    ensures Populate([Field("EC_ENABLE", "False", Bool)], [BoolValue(true)], NoEnv, Lenient, lib) == Outcome([BoolValue(false)], None)
    ensures Populate([Field("EC_ENABLE", "0", Bool)], [BoolValue(true)], NoEnv, Lenient, lib) == Outcome([BoolValue(false)], None)
  {
    assert AsciiLower("tRue") == "true";
    assert AsciiLower("F") == "f";
    assert AsciiLower("False") == "false";
    SingleFieldWrite(Field("EC_ENABLE", "t", Bool), BoolValue(false), NoEnv, Lenient, lib, BoolValue(true));
    SingleFieldWrite(Field("EC_ENABLE", "tRue", Bool), BoolValue(false), NoEnv, Lenient, lib, BoolValue(true));
    SingleFieldWrite(Field("EC_ENABLE", "1", Bool), BoolValue(false), NoEnv, Lenient, lib, BoolValue(true));
    SingleFieldWrite(Field("EC_ENABLE", "F", Bool), BoolValue(true), NoEnv, Lenient, lib, BoolValue(false));
    SingleFieldWrite(Field("EC_ENABLE", "False", Bool), BoolValue(true), NoEnv, Lenient, lib, BoolValue(false));
    SingleFieldWrite(Field("EC_ENABLE", "0", Bool), BoolValue(true), NoEnv, Lenient, lib, BoolValue(false));
  }

  /** An unrecognised boolean default fails the whole call with a parse error naming the variable. */
  lemma BoolDefaultRejected(lib: Library)
    ensures Populate([Field("EC_ENABLE", "boof", Bool)], [BoolValue(false)], NoEnv, Lenient, lib)
      == Outcome([BoolValue(false)], Some(ParseError("EC_ENABLE", NotABool)))
  {
  }

  /** The default "3w" binds 3 * 7 * Hour * 24 nanoseconds into a `time.Duration` field. */
  lemma DurationWeekDefault(lib: Library)
    ensures ParseDuration("3w") == Success(3 * 7 * Hour * 24)
    ensures Populate([Field("EC_LENGTH", "3w", Duration)], [IntValue(0)], NoEnv, Lenient, lib)
      == Outcome([IntValue(3 * 7 * Hour * 24)], None)
  {
    Digits("3", 3);
    DurationValue("3", "w");
    SingleFieldWrite(Field("EC_LENGTH", "3w", Duration), IntValue(0), NoEnv, Lenient, lib, IntValue(3 * 7 * Hour * 24));
  }

  /** The default "2d" binds 2 * Hour * 24 nanoseconds into a `time.Duration` field. */
  lemma DurationDayDefault(lib: Library)
    ensures ParseDuration("2d") == Success(2 * Hour * 24)
    ensures Populate([Field("EC_LENGTH", "2d", Duration)], [IntValue(0)], NoEnv, Lenient, lib)
      == Outcome([IntValue(2 * Hour * 24)], None)
  {
    Digits("2", 2);
    DurationValue("2", "d");
    SingleFieldWrite(Field("EC_LENGTH", "2d", Duration), IntValue(0), NoEnv, Lenient, lib, IntValue(2 * Hour * 24));
  }

  /** The default "2h" binds 2 * 3_600_000_000_000 nanoseconds into a `time.Duration` field. */
  lemma DurationHourDefault(lib: Library)
    ensures ParseDuration("2h") == Success(2 * 3_600_000_000_000)
    ensures Populate([Field("EC_LENGTH", "2h", Duration)], [IntValue(0)], NoEnv, Lenient, lib)
      == Outcome([IntValue(2 * 3_600_000_000_000)], None)
  {
    Digits("2", 2);
    DurationValue("2", "h");
    SingleFieldWrite(Field("EC_LENGTH", "2h", Duration), IntValue(0), NoEnv, Lenient, lib, IntValue(2 * 3_600_000_000_000));
  }

  /** The default "2m" binds 2 * 60_000_000_000 nanoseconds into a `time.Duration` field. */
  lemma DurationMinuteDefault(lib: Library)
    ensures ParseDuration("2m") == Success(2 * 60_000_000_000)
    ensures Populate([Field("EC_LENGTH", "2m", Duration)], [IntValue(0)], NoEnv, Lenient, lib)
      == Outcome([IntValue(2 * 60_000_000_000)], None)
  {
    Digits("2", 2);
    DurationValue("2", "m");
    SingleFieldWrite(Field("EC_LENGTH", "2m", Duration), IntValue(0), NoEnv, Lenient, lib, IntValue(2 * 60_000_000_000));
  }

  /** The default "2s" binds 2 * 1_000_000_000 nanoseconds into a `time.Duration` field. */
  lemma DurationSecondDefault(lib: Library)
    ensures ParseDuration("2s") == Success(2 * 1_000_000_000)
    ensures Populate([Field("EC_LENGTH", "2s", Duration)], [IntValue(0)], NoEnv, Lenient, lib)
      == Outcome([IntValue(2 * 1_000_000_000)], None)
  {
    Digits("2", 2);
    DurationValue("2", "s");
    SingleFieldWrite(Field("EC_LENGTH", "2s", Duration), IntValue(0), NoEnv, Lenient, lib, IntValue(2 * 1_000_000_000));
  }

  /** The default "2ms" binds 2 * 1_000_000 nanoseconds into a `time.Duration` field. */
  lemma DurationMillisecondDefault(lib: Library)
    ensures ParseDuration("2ms") == Success(2 * 1_000_000)
    ensures Populate([Field("EC_LENGTH", "2ms", Duration)], [IntValue(0)], NoEnv, Lenient, lib)
      == Outcome([IntValue(2 * 1_000_000)], None)
  {
    Digits("2", 2);
    DurationValue("2", "ms");
    SingleFieldWrite(Field("EC_LENGTH", "2ms", Duration), IntValue(0), NoEnv, Lenient, lib, IntValue(2 * 1_000_000));
  }

  /** The default "2us" binds 2 * 1_000 nanoseconds into a `time.Duration` field. */
  lemma DurationMicrosecondDefault(lib: Library)
    ensures ParseDuration("2us") == Success(2 * 1_000)
    ensures Populate([Field("EC_LENGTH", "2us", Duration)], [IntValue(0)], NoEnv, Lenient, lib)
      == Outcome([IntValue(2 * 1_000)], None)
  {
    Digits("2", 2);
    DurationValue("2", "us");
    SingleFieldWrite(Field("EC_LENGTH", "2us", Duration), IntValue(0), NoEnv, Lenient, lib, IntValue(2 * 1_000));
  }

  /** The default "2ns" binds 2 nanoseconds into a `time.Duration` field. */
  lemma DurationNanosecondDefault(lib: Library)
    ensures ParseDuration("2ns") == Success(2)
    ensures Populate([Field("EC_LENGTH", "2ns", Duration)], [IntValue(0)], NoEnv, Lenient, lib)
      == Outcome([IntValue(2)], None)
  {
    Digits("2", 2);
    DurationValue("2", "ns");
    SingleFieldWrite(Field("EC_LENGTH", "2ns", Duration), IntValue(0), NoEnv, Lenient, lib, IntValue(2));
  }

  /** A bare number has no unit, and a sign is not a digit: both fail parsing an empty magnitude. */
  lemma DurationWithoutMagnitude()
    ensures ParseDuration("5") == Failure(NotAnInteger(""))
    ensures ParseDuration("-5s") == Failure(NotAnInteger(""))
    ensures ParseDuration("+5s") == Failure(NotAnInteger(""))
  {
    DurationNeedsUnit("5");
    DurationNeedsLeadingDigit("-5s");
    DurationNeedsLeadingDigit("+5s");
  }

  /** Compound, upper-case and space-separated units are unknown units. */
  lemma DurationUnknownUnits()
    ensures ParseDuration("1h30m") == Failure(UnknownDurationUnit("h30m"))
    ensures ParseDuration("2H") == Failure(UnknownDurationUnit("H"))
    ensures ParseDuration("2 s") == Failure(UnknownDurationUnit(" s"))
  {
    Digits("1", 1);
    Digits("2", 2);
    DurationUnknownUnit("1", "h30m");
    DurationUnknownUnit("2", "H");
    DurationUnknownUnit("2", " s");
  }

  lemma WeekCountDigits()
    ensures NatDigits(15250) == "15250" && NatDigits(15251) == "15251"
  {
    assert NatDigits(1) == "1" && NatDigits(15) == "15";
    assert NatDigits(152) == "152" && NatDigits(1525) == "1525";
  }

  /** 15250 weeks, the most whole weeks that fit int64, is exact. */
  lemma DurationLargestWeeks()
    ensures ParseDuration("15250w") == Success(15250 * Week)
  {
    WeekCountDigits();
    Digits("15250", 15250);
    DurationValue("15250", "w");
  }

  /** The multiplication by the unit is not checked: 15251 weeks wraps to a negative duration. */
  lemma DurationWrapsSilently()
    ensures ParseDuration("15251w") == Success(-9_222_939_273_709_551_616)
  {
    WeekCountDigits();
    Digits("15251", 15251);
    DurationValue("15251", "w");
  }

  /** No range check narrower than int64: "300" into an int8 field stores 300 truncated to 8 bits. */
  lemma NarrowFieldTruncates(lib: Library)
    ensures ApplyValue(Int8, "300", lib) == Success(IntValue(44))
    ensures ApplyValue(Int16, "300", lib) == Success(IntValue(300))
  {
    Digits("300", 300);
    assert IsDecimalLiteral("300") && LiteralValue("300") == 300;
  }

  /** A field with neither value nor default is an error under `WithErrorOnMissing` and left alone without it. */
  lemma MissingWithoutDefault(lib: Library)
    ensures Populate([Field("EC_SOMETHING", "", String)], [StringValue("")], NoEnv, Strict, lib)
      == Outcome([StringValue("")], Some(MissingVariable("EC_SOMETHING")))
    ensures Populate([Field("EC_SOMETHING", "", String)], [StringValue("")], NoEnv, Lenient, lib)
      == Outcome([StringValue("")], None)
  {
  }

  /** A variable set in the environment satisfies `WithErrorOnMissing` and is bound. */
  lemma EnvironmentValueBound(lib: Library)
    ensures Populate([Field("APP_TEST_NAME", "", String)], [StringValue("")], map["APP_TEST_NAME" := "hello"], Strict, lib)
      == Outcome([StringValue("hello")], None)
  {
  }

  /** A `[]byte` field receives the decoding of its base64 default. */
  lemma ByteArrayDefault(lib: Library)
    requires lib.decodeBase64("c2lsbHkgd2FiYml0") == Some(SillyWabbit)
    ensures Populate([Field("EC_SOME_ENCODED_STRING", "c2lsbHkgd2FiYml0", Bytes)], [BytesValue([])], NoEnv, Lenient, lib)
      == Outcome([BytesValue(SillyWabbit)], None)
  {
  }

  /** A valid field declared before a missing required one is bound before the call fails. */
  lemma FailFastOrder(lib: Library)
    ensures Populate([Field("EC_NAME", "hello", String), Field("EC_SOMETHING", "", String)],
                     [StringValue(""), StringValue("")], NoEnv, Strict, lib)
      == Outcome([StringValue("hello"), StringValue("")], Some(MissingVariable("EC_SOMETHING")))
  {
  }
}
