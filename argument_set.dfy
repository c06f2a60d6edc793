/** The argument set of a query: the values bound to the query's argument
    descriptors, pre-filled from the query context, edited by the user,
    checked for completeness and finally resolved into the values that are
    injected into the query's fields. */
module QueryArguments {
  import opened Wrappers
  import opened Text

  /** An argument value; `Null` is Java's null, which can be stored under a
      key just like any other value.  Values are otherwise opaque. */
  datatype Value = Null | Obj(text: string)

  /** An argument descriptor: its name, whether it is mandatory, and its
      default value (`Null` when it has none). */
  datatype ArgumentDescriptor = ArgumentDescriptor(name: string, mandatory: bool, defaultValue: Value)

  /** A query descriptor: its identifier and its arguments in declaration order. */
  datatype QueryDescriptor = QueryDescriptor(identifier: string, arguments: seq<ArgumentDescriptor>)

  /** The query context, reduced to what it can supply: an argument is
      available from the context iff it has an entry here, and the entry is
      what the context hands out for it. */
  datatype QueryContext = QueryContext(supplied: map<ArgumentDescriptor, Value>)

  predicate Available(context: QueryContext, arg: ArgumentDescriptor) {
    arg in context.supplied
  }

  /** `Map.get`: the stored value, or null for a missing key. */
  function Lookup(values: map<ArgumentDescriptor, Value>, arg: ArgumentDescriptor): (r: Value)
    ensures arg !in values ==> r == Null
    ensures r != Null ==> arg in values && values[arg] == r
  {
    if arg in values then values[arg] else Null
  }

  /** `getArgumentByName`: the first argument with that name. */
  function ArgumentByName(args: seq<ArgumentDescriptor>, name: string): (r: Option<ArgumentDescriptor>)
    ensures r.Some? ==> r.value in args && r.value.name == name
    ensures r.Some? ==> exists i :: 0 <= i < |args| && args[i] == r.value && forall j :: 0 <= j < i ==> args[j].name != name
    ensures r.None? ==> forall i :: 0 <= i < |args| ==> args[i].name != name
  {
    if args == [] then None
    else if args[0].name == name then Some(args[0])
    else ArgumentByName(args[1..], name)
  }

  function NoSuchArgumentMessage(identifier: string, name: string): string {
    "Query '" + identifier + "' has no argument named '" + name + "'"
  }

  function MissingParameterMessage(name: string): string {
    "Missing required parameter: " + name
  }

  // ---------------------------------------------------------------------
  // Specification functions
  // ---------------------------------------------------------------------

  /** The map the constructor builds: every argument the context can supply,
      bound to what the context supplies. */
  function PreFill(args: seq<ArgumentDescriptor>, context: QueryContext): map<ArgumentDescriptor, Value>
  {
    if args == [] then map[]
    else
      var rest := PreFill(args[..|args| - 1], context);
      var a := args[|args| - 1];
      if Available(context, a) then rest[a := context.supplied[a]] else rest
  }

  lemma {:induction false} PreFillContents(args: seq<ArgumentDescriptor>, context: QueryContext)
    ensures forall a :: a in PreFill(args, context) <==> a in args && Available(context, a)
    ensures forall a :: a in PreFill(args, context) ==>
              a in context.supplied && PreFill(args, context)[a] == context.supplied[a]
  {
    if args != [] {
      PreFillContents(args[..|args| - 1], context);
      assert args == args[..|args| - 1] + [args[|args| - 1]];
    }
  }

  /** A mandatory argument without a key and without a default. */
  predicate Unsatisfied(arg: ArgumentDescriptor, values: map<ArgumentDescriptor, Value>) {
    arg.mandatory && arg !in values && arg.defaultValue == Null
  }

  /** `isExecutable`: no mandatory argument is left without a key and a default. */
  predicate Executable(args: seq<ArgumentDescriptor>, values: map<ArgumentDescriptor, Value>) {
    forall i :: 0 <= i < |args| ==> !Unsatisfied(args[i], values)
  }

  /** The arguments without a key, in declaration order. */
  function Unset(args: seq<ArgumentDescriptor>, values: map<ArgumentDescriptor, Value>): seq<ArgumentDescriptor>
  {
    if args == [] then []
    else
      var a := args[|args| - 1];
      Unset(args[..|args| - 1], values) + (if a in values then [] else [a])
  }

  lemma {:induction false} UnsetContents(args: seq<ArgumentDescriptor>, values: map<ArgumentDescriptor, Value>)
    ensures forall a :: a in Unset(args, values) <==> a in args && a !in values
    ensures |Unset(args, values)| <= |args|
  {
    if args != [] {
      UnsetContents(args[..|args| - 1], values);
      assert args == args[..|args| - 1] + [args[|args| - 1]];
    }
  }

  /** The arguments the user has to supply: neither available from the
      context nor bound, in declaration order. */
  function Pending(args: seq<ArgumentDescriptor>, values: map<ArgumentDescriptor, Value>, context: QueryContext)
    : seq<ArgumentDescriptor>
  {
    if args == [] then []
    else
      var a := args[|args| - 1];
      Pending(args[..|args| - 1], values, context) + (if Available(context, a) || a in values then [] else [a])
  }

  lemma {:induction false} PendingContents(args: seq<ArgumentDescriptor>, values: map<ArgumentDescriptor, Value>,
                                           context: QueryContext)
    ensures forall a :: a in Pending(args, values, context) <==> a in args && !Available(context, a) && a !in values
  {
    if args != [] {
      PendingContents(args[..|args| - 1], values, context);
      assert args == args[..|args| - 1] + [args[|args| - 1]];
    }
  }

  /** The concatenated usages of `args`. */
  function Usages(args: seq<ArgumentDescriptor>, usage: ArgumentDescriptor -> string): string
  {
    if args == [] then "" else Usages(args[..|args| - 1], usage) + usage(args[|args| - 1])
  }

  /** What one argument contributes to the command line: nothing without a
      key or when the context supplies it; its usage with the bound value;
      with null when it is bound to null but has a default.  (A third
      branch for a mandatory argument with a default cannot be reached:
      the second branch already takes every argument with a default.) */
  function LineEntry(arg: ArgumentDescriptor, values: map<ArgumentDescriptor, Value>, context: QueryContext,
                     usage: (ArgumentDescriptor, Value) -> string): string
  {
    if arg !in values || Available(context, arg) then ""
    else if values[arg] != Null then usage(arg, values[arg])
    else if arg.defaultValue != Null then usage(arg, Null)
    else ""
  }

  function LineBody(args: seq<ArgumentDescriptor>, values: map<ArgumentDescriptor, Value>, context: QueryContext,
                    usage: (ArgumentDescriptor, Value) -> string): string
  {
    if args == [] then ""
    else LineBody(args[..|args| - 1], values, context, usage) + LineEntry(args[|args| - 1], values, context, usage)
  }

  /** The arguments set by hand: bound, and not supplied by the context. */
  function Manual(args: seq<ArgumentDescriptor>, values: map<ArgumentDescriptor, Value>, context: QueryContext)
    : seq<ArgumentDescriptor>
  {
    if args == [] then []
    else
      var a := args[|args| - 1];
      Manual(args[..|args| - 1], values, context) + (if a in values && !Available(context, a) then [a] else [])
  }

  /** Only the arguments set by hand appear on the command line. */
  lemma {:induction false} LineShowsOnlyManualArguments(args: seq<ArgumentDescriptor>,
                                                         values: map<ArgumentDescriptor, Value>,
                                                         context: QueryContext,
                                                         usage: (ArgumentDescriptor, Value) -> string)
    ensures LineBody(args, values, context, usage) == LineBody(Manual(args, values, context), values, context, usage)
  {
    if args != [] {
      var init, a := args[..|args| - 1], args[|args| - 1];
      LineShowsOnlyManualArguments(init, values, context, usage);
      var m := Manual(init, values, context);
      if a in values && !Available(context, a) {
        assert Manual(args, values, context) == m + [a];
        assert (m + [a])[..|m + [a]| - 1] == m;
        assert LineBody(m + [a], values, context, usage) ==
               LineBody(m, values, context, usage) + LineEntry(a, values, context, usage);
      } else {
        assert Manual(args, values, context) == m;
        assert LineEntry(a, values, context, usage) == "";
      }
    }
  }

  /** Without arguments set by hand the command line is the identifier alone. */
  lemma {:induction false} LineWithoutManualArguments(args: seq<ArgumentDescriptor>,
                                                      values: map<ArgumentDescriptor, Value>,
                                                      context: QueryContext,
                                                      usage: (ArgumentDescriptor, Value) -> string)
    requires forall i :: 0 <= i < |args| ==> args[i] !in values || Available(context, args[i])
    ensures LineBody(args, values, context, usage) == ""
  {
    if args != [] {
      LineWithoutManualArguments(args[..|args| - 1], values, context, usage);
    }
  }

  /** `writeToLine` begins with the query identifier whenever that
      identifier starts and ends with a visible character. */
  lemma LineStartsWithIdentifier(identifier: string, body: string)
    requires identifier != [] && !IsTrimmable(identifier[0]) && !IsTrimmable(identifier[|identifier| - 1])
    ensures var line := Trim(identifier + " " + body);
            |line| >= |identifier| && line[..|identifier|] == identifier
  {
    assert identifier + " " + body == identifier + (" " + body);
    TrimKeepsHead(identifier, " " + body);
  }

  /** One step of the value resolution in `execute`: the value to inject
      into the argument's field (`Some(Null)` for an explicit null),
      `None` when the field is left alone, or the error that aborts. */
  function ResolveStep(arg: ArgumentDescriptor, values: map<ArgumentDescriptor, Value>): Result<Option<Value>, string>
  {
    var value := Lookup(values, arg);
    var value := if value == Null && arg.mandatory then arg.defaultValue else value;
    if value == Null && arg.mandatory then Failure(MissingParameterMessage(arg.name))
    else if value == Null then (if arg in values then Success(Some(Null)) else Success(None))
    else Success(Some(value))
  }

  /** A field assignment `execute` performs. */
  datatype Assignment = Assignment(arg: ArgumentDescriptor, value: Value)

  /** The field assignments of `execute`, in declaration order, or the
      first missing mandatory argument. */
  function Resolution(args: seq<ArgumentDescriptor>, values: map<ArgumentDescriptor, Value>)
    : Result<seq<Assignment>, string>
  {
    if args == [] then Success([])
    else
      match Resolution(args[..|args| - 1], values)
      case Failure(e) => Failure(e)
      case Success(done) =>
        var a := args[|args| - 1];
        match ResolveStep(a, values)
        case Failure(e) => Failure(e)
        case Success(None) => Success(done)
        case Success(Some(v)) => Success(done + [Assignment(a, v)])
  }

  /** A mandatory argument is resolvable when it has a non-null value or a
      non-null default. */
  predicate Resolvable(arg: ArgumentDescriptor, values: map<ArgumentDescriptor, Value>) {
    !arg.mandatory || Lookup(values, arg) != Null || arg.defaultValue != Null
  }

  /** Resolution succeeds iff every argument is resolvable, and otherwise
      names the first argument that is not. */
  lemma {:induction false} ResolutionOutcome(args: seq<ArgumentDescriptor>, values: map<ArgumentDescriptor, Value>)
    ensures Resolution(args, values).Success? <==> forall i :: 0 <= i < |args| ==> Resolvable(args[i], values)
    ensures Resolution(args, values).Failure? ==>
              exists i :: 0 <= i < |args| && !Resolvable(args[i], values) &&
                          (forall j :: 0 <= j < i ==> Resolvable(args[j], values)) &&
                          Resolution(args, values).error == MissingParameterMessage(args[i].name)
  {
    if args != [] {
      var init := args[..|args| - 1];
      ResolutionOutcome(init, values);
      assert forall i :: 0 <= i < |init| ==> init[i] == args[i];
    }
  }

  /** Every assignment binds a mandatory argument to a non-null value, and
      every assignment belongs to an argument of the query. */
  lemma {:induction false} ResolutionAssignments(args: seq<ArgumentDescriptor>, values: map<ArgumentDescriptor, Value>)
    requires Resolution(args, values).Success?
    ensures var bs := Resolution(args, values).value;
            |bs| <= |args| &&
            forall j :: 0 <= j < |bs| ==> bs[j].arg in args && (bs[j].arg.mandatory ==> bs[j].value != Null)
  {
    if args != [] {
      ResolutionAssignments(args[..|args| - 1], values);
    }
  }

  /** An executable argument set whose values are all non-null resolves. */
  lemma ExecutableWithoutNullsResolves(args: seq<ArgumentDescriptor>, values: map<ArgumentDescriptor, Value>)
    requires Executable(args, values)
    requires forall a :: a in values ==> values[a] != Null
    ensures Resolution(args, values).Success?
  {
    ResolutionOutcome(args, values);
    forall i | 0 <= i < |args| ensures Resolvable(args[i], values) {
      assert !Unsatisfied(args[i], values);
    }
  }

  /** `isExecutable` counts a key bound to null as set, but `execute`
      does not: a mandatory argument explicitly bound to null and without a
      default passes the one and fails the other. */
  lemma ExecutableButMissing()
    ensures var a := ArgumentDescriptor("objects", true, Null);
            var values := map[a := Null];
            Executable([a], values) && Resolution([a], values) == Failure("Missing required parameter: objects")
  {
    var a := ArgumentDescriptor("objects", true, Null);
    var values := map[a := Null];
    assert [a][..0] == [];
    assert ResolveStep(a, values) == Failure(MissingParameterMessage("objects"));
    assert MissingParameterMessage("objects") == "Missing required parameter: objects";
  }

  // ---------------------------------------------------------------------
  // The argument set
  // ---------------------------------------------------------------------

  class ArgumentSet {
    const query: QueryDescriptor
    const context: QueryContext
    var values: map<ArgumentDescriptor, Value>

    /** Binds every argument the context can supply. */
    constructor (query: QueryDescriptor, context: QueryContext)
      ensures this.query == query && this.context == context
      ensures values == PreFill(query.arguments, context)
      ensures forall a :: a in values <==> a in query.arguments && Available(context, a)
    {
      var args := query.arguments;
      var m := map[];
      for i := 0 to |args|
        invariant m == PreFill(args[..i], context)
      {
        assert args[..i + 1][..i] == args[..i];
        var a := args[i];
        if Available(context, a) {
          m := m[a := context.supplied[a]];
        }
      }
      assert args[..|args|] == args;
      PreFillContents(args, context);
      this.query := query;
      this.context := context;
      values := m;
    }

    function GetArgumentValue(arg: ArgumentDescriptor): Value
      reads this
    {
      Lookup(values, arg)
    }

    method SetArgumentValue(arg: ArgumentDescriptor, value: Value)
      modifies this
      ensures values == old(values)[arg := value]
      ensures GetArgumentValue(arg) == value
      ensures forall a :: a != arg ==> GetArgumentValue(a) == old(GetArgumentValue(a))
    {
      values := values[arg := value];
    }

    /** Sets the argument of that name, or fails, changing nothing, when the
        query has no such argument. */
    method SetArgumentValueByName(name: string, value: Value) returns (r: Result<ArgumentDescriptor, string>)
      modifies this
      ensures r.Failure? <==> ArgumentByName(query.arguments, name).None?
      ensures r.Failure? ==> r.error == NoSuchArgumentMessage(query.identifier, name) && values == old(values)
      ensures r.Success? ==> r.value in query.arguments && r.value.name == name &&
                             values == old(values)[r.value := value]
    {
      match ArgumentByName(query.arguments, name)
      case None =>
        r := Failure(NoSuchArgumentMessage(query.identifier, name));
      case Some(arg) =>
        SetArgumentValue(arg, value);
        r := Success(arg);
    }

    method RemoveArgumentValue(arg: ArgumentDescriptor)
      modifies this
      ensures values == old(values) - {arg}
      ensures GetArgumentValue(arg) == Null
      ensures forall a :: a != arg ==> GetArgumentValue(a) == old(GetArgumentValue(a))
    {
      values := values - {arg};
    }

    /** True iff every mandatory argument has a key or a non-null default. */
    method IsExecutable() returns (b: bool)
      ensures b <==> Executable(query.arguments, values)
    {
      var args := query.arguments;
      for i := 0 to |args|
        invariant forall j :: 0 <= j < i ==> !Unsatisfied(args[j], values)
      {
        if args[i].mandatory && args[i] !in values && args[i].defaultValue == Null {
          return false;
        }
      }
      return true;
    }

    /** The arguments without a key, in declaration order. */
    method GetUnsetArguments() returns (r: seq<ArgumentDescriptor>)
      ensures r == Unset(query.arguments, values)
      ensures forall a :: a in r <==> a in query.arguments && a !in values
    {
      var args := query.arguments;
      r := [];
      for i := 0 to |args|
        invariant r == Unset(args[..i], values)
      {
        assert args[..i + 1][..i] == args[..i];
        if args[i] !in values {
          r := r + [args[i]];
        }
      }
      assert args[..|args|] == args;
      UnsetContents(args, values);
    }

    /** The usages of the arguments the user still has to supply, trimmed. */
    method GetUnsetUsage(usage: ArgumentDescriptor -> string) returns (s: string)
      ensures s == Trim(Usages(Pending(query.arguments, values, context), usage))
    {
      var args := query.arguments;
      var answer := "";
      ghost var pending: seq<ArgumentDescriptor> := [];
      for i := 0 to |args|
        invariant pending == Pending(args[..i], values, context)
        invariant answer == Usages(pending, usage)
      {
        assert args[..i + 1][..i] == args[..i];
        if Available(context, args[i]) {
          continue;
        }
        if args[i] !in values {
          assert (pending + [args[i]])[..|pending|] == pending;
          answer := answer + usage(args[i]);
          pending := pending + [args[i]];
        }
      }
      assert args[..|args|] == args;
      s := Trim(answer);
    }

    /** The command line that reproduces this argument set: the identifier,
        then the usages of the arguments set by hand, trimmed. */
    method WriteToLine(usage: (ArgumentDescriptor, Value) -> string) returns (s: string)
      ensures s == Trim(query.identifier + " " + LineBody(query.arguments, values, context, usage))
    {
      var args := query.arguments;
      var answer := query.identifier + " ";
      for i := 0 to |args|
        invariant answer == query.identifier + " " + LineBody(args[..i], values, context, usage)
      {
        assert args[..i + 1][..i] == args[..i];
        var arg := args[i];
        var value := Lookup(values, arg);
        if value == Null && arg !in values {
          continue;
        }
        if Available(context, arg) {
          continue;
        }
        if value != Null {
          answer := answer + usage(arg, value);
        } else if arg.defaultValue != Null {
          answer := answer + usage(arg, Null);
        } else if arg.mandatory && arg.defaultValue != Null {
          answer := answer + usage(arg, arg.defaultValue);
        }
      }
      assert args[..|args|] == args;
      s := Trim(answer);
    }

    /** The value resolution of `execute`: for each argument in order, the
        assignment it makes to the query's field, or the error for the
        first mandatory argument left without a value. */
    method ResolveArguments() returns (r: Result<seq<Assignment>, string>)
      ensures r == Resolution(query.arguments, values)
    {
      var args := query.arguments;
      var done: seq<Assignment> := [];
      for i := 0 to |args|
        invariant Resolution(args[..i], values) == Success(done)
      {
        assert args[..i + 1][..i] == args[..i];
        var parameter := args[i];
        var value := Lookup(values, parameter);
        if value == Null && parameter.mandatory {
          value := parameter.defaultValue;
          if value == Null {
            assert Resolution(args[..i + 1], values) == Failure(MissingParameterMessage(parameter.name));
            ResolutionStopsAtFailure(args, values, i + 1);
            return Failure(MissingParameterMessage(parameter.name));
          }
        }
        if value == Null {
          if parameter in values {
            done := done + [Assignment(parameter, Null)];
          }
          continue;
        }
        done := done + [Assignment(parameter, value)];
      }
      assert args[..|args|] == args;
      r := Success(done);
    }
  }

  /** Once resolution fails on a prefix, it fails the same way on the whole. */
  lemma {:induction false} ResolutionStopsAtFailure(args: seq<ArgumentDescriptor>, values: map<ArgumentDescriptor, Value>, n: nat)
    requires n <= |args| && Resolution(args[..n], values).Failure?
    ensures Resolution(args, values) == Resolution(args[..n], values)
    decreases |args| - n
  {
    if n < |args| {
      assert args[..n + 1][..n] == args[..n];
      ResolutionStopsAtFailure(args, values, n + 1);
    } else {
      assert args[..n] == args;
    }
  }
}
