/**
 Argument matching of query-like expectations (expectations_go18.go), the conversion of the actual
 arguments (sqlmock_go19.go) and the numbering of positional ones (statement_go18.go).

 Converters, custom matchers and deep equality are parameters: total, pure functions.
*/
module Arguments {
  import opened Wrappers

  /** An argument value. `Out` is sql.Out, which `CheckNamedValue` leaves alone. */
  datatype Value =
    | Nil
    | Int64(i: int)
    | Bool(b: bool)
    | Text(s: string)
    | Bytes(bs: seq<int>)
    | Out(dest: int)
    | Other(id: int)

  /** The pair a converter returns: a value, or an error next to whatever value it has left. */
  datatype Conversion = Converts(value: Value) | Fails(value: Value)

  type Converter = Value -> Conversion
  type DeepEqual = (Value, Value) -> bool

  /** What `WithArgs` stores for one position. */
  datatype Arg = Matcher(accepts: Value -> bool) | Named(name: string, value: Value) | Positional(value: Value)

  /** The driver's view of an actual argument. */
  datatype NamedValue = NamedValue(name: string, ordinal: int, value: Value)

  /** The argument part of a query-based expectation; `args` is None for Go's nil slice. */
  datatype ArgSpec = ArgSpec(args: Option<seq<Arg>>, noArgs: bool, convert: Converter)

  datatype Reason = MatcherSaysNo | WrongName | WrongOrdinal | NotConvertible | Different

  /** Which test failed, and where. */
  datatype Fault = UnwantedArgs | WrongCount | At(k: nat, reason: Reason)

  /** The expected value of a position after conversion, with its name or ordinal agreeing. */
  predicate PositionAgrees(eq: DeepEqual, convert: Converter, k: nat, want: Arg, got: NamedValue) {
    match want
    case Matcher(accepts) => accepts(got.value)
    case Named(name, v) => got.name == name && ConvertsTo(eq, convert, v, got.value)
    case Positional(v) => got.ordinal == k + 1 && ConvertsTo(eq, convert, v, got.value)
  }

  predicate ConvertsTo(eq: DeepEqual, convert: Converter, v: Value, got: Value) {
    convert(v).Converts? && eq(convert(v).value, got)
  }

  /** Lengths agree and every position passes; without expected arguments only `noArgs` matters. */
  predicate ArgsAgree(eq: DeepEqual, spec: ArgSpec, args: seq<NamedValue>) {
    match spec.args
    case None => spec.noArgs ==> args == []
    case Some(want) =>
      |args| == |want| && forall k | 0 <= k < |args| :: PositionAgrees(eq, spec.convert, k, want[k], args[k])
  }

  /** `reason` is the first test that position `k` fails. */
  predicate FailsFor(eq: DeepEqual, convert: Converter, k: nat, want: Arg, got: NamedValue, reason: Reason) {
    match want
    case Matcher(accepts) => !accepts(got.value) && reason == MatcherSaysNo
    case Named(name, v) =>
      if got.name != name then reason == WrongName else ConversionFailsFor(eq, convert, v, got.value, reason)
    case Positional(v) =>
      if got.ordinal != k + 1 then reason == WrongOrdinal else ConversionFailsFor(eq, convert, v, got.value, reason)
  }

  predicate ConversionFailsFor(eq: DeepEqual, convert: Converter, v: Value, got: Value, reason: Reason) {
    match convert(v)
    case Fails(_) => reason == NotConvertible
    case Converts(d) => !eq(d, got) && reason == Different
  }

  /** The fault names the first failing position and the first test that fails there. */
  predicate Explains(eq: DeepEqual, spec: ArgSpec, args: seq<NamedValue>, fault: Fault) {
    match fault
    case UnwantedArgs => spec.args.None? && spec.noArgs && args != []
    case WrongCount => spec.args.Some? && |args| != |spec.args.value|
    case At(k, reason) =>
      && spec.args.Some? && |args| == |spec.args.value| && k < |args|
      && (forall j | 0 <= j < k :: PositionAgrees(eq, spec.convert, j, spec.args.value[j], args[j]))
      && FailsFor(eq, spec.convert, k, spec.args.value[k], args[k], reason)
  }

  /** The early-exit loop: nil exactly when the arguments agree, else the first fault. */
  method ArgsMatches(eq: DeepEqual, spec: ArgSpec, args: seq<NamedValue>) returns (err: Option<Fault>)
    ensures err.None? <==> ArgsAgree(eq, spec, args)
    ensures err.Some? ==> Explains(eq, spec, args, err.value)
  {
    if spec.args.None? {
      if spec.noArgs && |args| > 0 {
        return Some(UnwantedArgs);
      }
      return None;
    }
    var want := spec.args.value;
    if |args| != |want| {
      return Some(WrongCount);
    }
    for k := 0 to |args|
      invariant forall j | 0 <= j < k :: PositionAgrees(eq, spec.convert, j, want[j], args[j])
    {
      var v := args[k];
      if want[k].Matcher? {
        if !want[k].accepts(v.value) {
          return Some(At(k, MatcherSaysNo));
        }
        continue;
      }
      var dval := want[k].value;
      if want[k].Named? {
        if v.name != want[k].name {
          return Some(At(k, WrongName));
        }
      } else if k + 1 != v.ordinal {
        return Some(At(k, WrongOrdinal));
      }
      var darg := spec.convert(dval);
      if darg.Fails? {
        return Some(At(k, NotConvertible));
      }
      if !eq(darg.value, v.value) {
        return Some(At(k, Different));
      }
    }
    return None;
  }

  /** What agreement asks of each position, outright: a matcher decides alone; any other value is converted
      and must equal the actual one, under the expected name if it has one and else at its own ordinal. */
  lemma ArgsAgreeIff(eq: DeepEqual, spec: ArgSpec, args: seq<NamedValue>)
    ensures spec.args.None? ==> (ArgsAgree(eq, spec, args) <==> !spec.noArgs || |args| == 0)
    ensures spec.args.Some? ==>
              (ArgsAgree(eq, spec, args) <==>
               && |args| == |spec.args.value|
               && forall k | 0 <= k < |args| ::
                    var want, got := spec.args.value[k], args[k];
                    && (want.Matcher? ==> want.accepts(got.value))
                    && (!want.Matcher? ==>
                          && spec.convert(want.value).Converts? && eq(spec.convert(want.value).value, got.value)
                          && if want.Named? then got.name == want.name else got.ordinal == k + 1))
  {
    if spec.args.Some? && |args| == |spec.args.value| {
      forall k | 0 <= k < |args|
        ensures PositionAgrees(eq, spec.convert, k, spec.args.value[k], args[k]) <==>
                (var want, got := spec.args.value[k], args[k];
                 && (want.Matcher? ==> want.accepts(got.value))
                 && (!want.Matcher? ==>
                       && spec.convert(want.value).Converts? && eq(spec.convert(want.value).value, got.value)
                       && if want.Named? then got.name == want.name else got.ordinal == k + 1))
      {
      }
    }
  }

  /** A fault is never reported for agreeing arguments, and only one fault explains a call. */
  lemma FaultIsUnique(eq: DeepEqual, spec: ArgSpec, args: seq<NamedValue>, f: Fault, g: Fault)
    requires Explains(eq, spec, args, f) && Explains(eq, spec, args, g)
    ensures f == g && !ArgsAgree(eq, spec, args)
  {
    if f.At? && g.At? {
      FailingPositionDisagrees(eq, spec.convert, f.k, spec.args.value[f.k], args[f.k], f.reason);
      FailingPositionDisagrees(eq, spec.convert, g.k, spec.args.value[g.k], args[g.k], g.reason);
    }
  }

  /** What each reported fault says about the arguments. */
  lemma FaultSays(eq: DeepEqual, spec: ArgSpec, args: seq<NamedValue>, fault: Fault)
    requires Explains(eq, spec, args, fault)
    ensures fault.UnwantedArgs? ==> spec.args.None? && spec.noArgs && |args| > 0
    ensures fault.WrongCount? ==> spec.args.Some? && |args| != |spec.args.value|
    ensures fault.At? ==> spec.args.Some? && fault.k < |args| == |spec.args.value|
    ensures fault.At? ==>
              var want, got, converted := spec.args.value[fault.k], args[fault.k], spec.convert;
              match fault.reason
              case MatcherSaysNo => want.Matcher? && !want.accepts(got.value)
              case WrongName => want.Named? && got.name != want.name
              case WrongOrdinal => want.Positional? && got.ordinal != fault.k + 1
              case NotConvertible => !want.Matcher? && converted(want.value).Fails?
              case Different => !want.Matcher? && !eq(converted(want.value).value, got.value)
  {
  }

  lemma FailingPositionDisagrees(eq: DeepEqual, convert: Converter, k: nat, want: Arg, got: NamedValue, r: Reason)
    requires FailsFor(eq, convert, k, want, got, r)
    ensures !PositionAgrees(eq, convert, k, want, got)
  {
  }

  // ----- the actual side

  /** Overwrites one value in place by what the converter returns, even next to an error. */
  method CheckNamedValue(nvs: array<NamedValue>, k: nat, convert: Converter) returns (ok: bool)
    requires k < nvs.Length
    modifies nvs
    ensures ok == Checked(convert, old(nvs[k].value)).Converts?
    ensures nvs[..] == old(nvs[..])[k := old(nvs[k]).(value := Checked(convert, old(nvs[k].value)).value)]
    ensures old(nvs[k].value.Out?) ==> ok && nvs[..] == old(nvs[..])
    ensures old(!nvs[k].value.Out?) ==> ok == convert(old(nvs[k].value)).Converts?
    ensures old(!nvs[k].value.Out?) ==> nvs[k] == old(nvs[k]).(value := convert(old(nvs[k].value)).value)
  {
    if nvs[k].value.Out? {
      return true;
    }
    var r := convert(nvs[k].value);
    nvs[k] := nvs[k].(value := r.value);
    return r.Converts?;
  }

  function Checked(convert: Converter, v: Value): Conversion {
    if v.Out? then Converts(v) else convert(v)
  }

  /** Positional arguments get ordinals 1, 2, ... and no names. */
  method ConvertValueToNamedValue(args: seq<Value>) returns (named: array<NamedValue>)
    ensures fresh(named) && named[..] == Numbered(args)
    ensures named.Length == |args| && forall i | 0 <= i < |args| :: named[i] == NamedValue("", i + 1, args[i])
  {
    named := new NamedValue[|args|](i requires 0 <= i < |args| => NamedValue("", 0, Nil));
    for i := 0 to |args|
      invariant forall j | 0 <= j < i :: named[j] == NamedValue("", j + 1, args[j])
    {
      named[i] := NamedValue("", i + 1, args[i]);
    }
  }

  function Numbered(args: seq<Value>): seq<NamedValue> {
    seq(|args|, i requires 0 <= i < |args| => NamedValue("", i + 1, args[i]))
  }

  /** A caller's own argument: a bare value or a named one. */
  datatype Raw = Bare(value: Value) | WithName(name: string, value: Value)

  /** The expectation written with the same arguments as the call. */
  function Expecting(raw: seq<Raw>): seq<Arg> {
    seq(|raw|, i requires 0 <= i < |raw| =>
      match raw[i] case Bare(v) => Positional(v) case WithName(n, v) => Named(n, v))
  }

  /** The call side before conversion: numbered from 1, names kept. */
  function Calling(raw: seq<Raw>): seq<NamedValue> {
    seq(|raw|, i requires 0 <= i < |raw| =>
      NamedValue(if raw[i].WithName? then raw[i].name else "", i + 1, raw[i].value))
  }

  /** The call side after every `CheckNamedValue` succeeded. */
  function Converted(convert: Converter, nvs: seq<NamedValue>): seq<NamedValue>
    requires forall i | 0 <= i < |nvs| :: Checked(convert, nvs[i].value).Converts?
  {
    seq(|nvs|, i requires 0 <= i < |nvs| => nvs[i].(value := Checked(convert, nvs[i].value).value))
  }

  /** The call converts its own value to something equal to itself; for sql.Out, which only the
      expected side converts, the conversion must give back an equal value. */
  predicate SelfEqual(eq: DeepEqual, convert: Converter, v: Value) {
    convert(v).Converts? && eq(convert(v).value, Checked(convert, v).value)
  }

  /** An expectation written with the call's own arguments matches the converted call exactly when
      every value is equal to itself after conversion: names and ordinals never spoil it. */
  lemma OwnArgumentsMatchIff(eq: DeepEqual, convert: Converter, raw: seq<Raw>, noArgs: bool)
    requires forall i | 0 <= i < |raw| :: Checked(convert, raw[i].value).Converts?
    ensures ArgsAgree(eq, ArgSpec(Some(Expecting(raw)), noArgs, convert), Converted(convert, Calling(raw)))
            <==> forall i | 0 <= i < |raw| :: SelfEqual(eq, convert, raw[i].value)
  {
    var got := Converted(convert, Calling(raw));
    var want := Expecting(raw);
    assert forall i | 0 <= i < |raw| ::
      PositionAgrees(eq, convert, i, want[i], got[i]) <==> SelfEqual(eq, convert, raw[i].value);
  }

  /** Without sql.Out and with a reflexive equality the expectation always matches. */
  lemma OwnArgumentsMatch(eq: DeepEqual, convert: Converter, raw: seq<Raw>, noArgs: bool)
    requires forall i | 0 <= i < |raw| :: !raw[i].value.Out? && convert(raw[i].value).Converts?
    requires forall v :: eq(v, v)
    ensures ArgsAgree(eq, ArgSpec(Some(Expecting(raw)), noArgs, convert), Converted(convert, Calling(raw)))
  {
    OwnArgumentsMatchIff(eq, convert, raw, noArgs);
  }

  /** Once no name is sent and the ordinals are in place, only the value of a position counts. */
  predicate ValueAgrees(eq: DeepEqual, convert: Converter, want: Arg, v: Value) {
    match want
    case Matcher(accepts) => accepts(v)
    case Named(name, w) => name == "" && ConvertsTo(eq, convert, w, v)
    case Positional(w) => ConvertsTo(eq, convert, w, v)
  }

  /** The deprecated statement path sends bare values. They match exactly if there are as many as
      expected and each agrees in value: ordinals never matter, and a named expectation with a
      non-empty name never matches. */
  lemma StatementArgumentsMatchIff(eq: DeepEqual, want: seq<Arg>, noArgs: bool, convert: Converter, args: seq<Value>)
    ensures ArgsAgree(eq, ArgSpec(Some(want), noArgs, convert), Numbered(args)) <==>
            |args| == |want| && forall k | 0 <= k < |args| :: ValueAgrees(eq, convert, want[k], args[k])
  {
    if |args| == |want| {
      assert forall k | 0 <= k < |args| ::
        PositionAgrees(eq, convert, k, want[k], Numbered(args)[k]) <==> ValueAgrees(eq, convert, want[k], args[k]);
    }
  }
}
