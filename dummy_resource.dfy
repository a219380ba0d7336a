/**
 * ChefDocBuilder::DummyResource: the record gathered from one custom-resource
 * file. The Ruby class evaluates the file with instance_eval so that the DSL
 * verbs of the file become calls on the record; here the file's statements
 * are given as a sequence of verb calls (Stmt) and applied in order.
 */
module ChefDocBuilder {
  import opened Wrappers
  import opened RubyValues
  import opened IncludeText

  /** The state of a DummyResource, as a value. */
  datatype Record = Record(
    name: string,
    actions: seq<Value>,
    libraries: seq<string>,
    properties: seq<Entries>,
    unifiedMode: Value,
    uses: seq<Value>,
    provide: seq<Value>,
    required: seq<Value>)

  /** The state DummyResource.new(name) starts from. */
  function NewRecord(name: string): Record
  {
    Record(name, [], [], [], Nil, [], [], [])
  }

  /**
   * One call of a DSL verb, with its evaluated arguments. A property call
   * without a type argument has propType == None: Ruby then fills in the
   * NOT_PASSED default.
   */
  datatype Stmt =
    | ActionStmt(action: Value)
    | ActionClassStmt
    | LazyStmt
    | LoadCurrentValueStmt
    | PropertyStmt(propName: Value, propType: Option<Value>, options: Entries)
    | UnifiedModeStmt(mode: Value)
    | UseStmt(partial: Value)
    | ProvidesStmt(provided: Value)
    | RequireStmt(gem: Value)

  /**
   * The hash a property declaration records: name and Array(type), then the
   * keyword options merged over them. `notPassed` is the value of the
   * NOT_PASSED constant, which stands in for an omitted type.
   */
  function PropertyHash(name: Value, propType: Option<Value>, options: Entries, notPassed: Value): (h: Entries)
    ensures |h| >= 2 && Keys(h)[..2] == [Sym("name"), Sym("type")]
    ensures forall k :: k in Keys(h) <==> k == Sym("name") || k == Sym("type") || k in Keys(options)
    ensures DistinctKeys(h)
  {
    var typeArg := if propType.Some? then propType.value else notPassed;
    var base := [(Sym("name"), name), (Sym("type"), Arr(ArrayOf(typeArg)))];
    assert Keys(base) == [Sym("name"), Sym("type")];
    Merge(base, options)
  }

  /**
   * Every key of the property hash holds the option's value when the options
   * name it (name and type included), and otherwise the declared name and the
   * normalised type.
   */
  lemma {:induction false} PropertyHashLookup(name: Value, propType: Option<Value>, options: Entries, notPassed: Value, k: Value)
    requires DistinctKeys(options)
    ensures Lookup(PropertyHash(name, propType, options, notPassed), k) ==
      if k in Keys(options) then Lookup(options, k)
      else if k == Sym("name") then Some(name)
      else if k == Sym("type") then Some(Arr(ArrayOf(if propType.Some? then propType.value else notPassed)))
      else None
  {
    var typeArg := if propType.Some? then propType.value else notPassed;
    var base := [(Sym("name"), name), (Sym("type"), Arr(ArrayOf(typeArg)))];
    MergeLookup(base, options, k);
    assert base[1..] == [(Sym("type"), Arr(ArrayOf(typeArg)))];
  }

  /**
   * The type normalisation of a property declaration, when no option
   * overrides it: nil gives [], an array is kept, a scalar is wrapped, and an
   * omitted type gives Array(NOT_PASSED).
   */
  lemma {:induction false} PropertyTypeNormalised(name: Value, propType: Option<Value>, options: Entries, notPassed: Value)
    requires DistinctKeys(options) && Sym("type") !in Keys(options)
    ensures propType == Some(Nil) ==> Lookup(PropertyHash(name, propType, options, notPassed), Sym("type")) == Some(Arr([]))
    ensures propType.Some? && propType.value.Arr? ==>
      Lookup(PropertyHash(name, propType, options, notPassed), Sym("type")) == Some(propType.value)
    ensures propType.Some? && !propType.value.Nil? && !propType.value.Arr? && !propType.value.Hash? ==>
      Lookup(PropertyHash(name, propType, options, notPassed), Sym("type")) == Some(Arr([propType.value]))
    ensures propType.None? ==>
      Lookup(PropertyHash(name, propType, options, notPassed), Sym("type")) == Some(Arr(ArrayOf(notPassed)))
  {
    PropertyHashLookup(name, propType, options, notPassed, Sym("type"));
  }

  /** The effect of one verb call on the record. */
  function Exec(r: Record, s: Stmt, notPassed: Value): (r': Record)
    ensures r'.name == r.name && r'.libraries == r.libraries
    ensures r.actions <= r'.actions && r.properties <= r'.properties && r.uses <= r'.uses
    ensures r.provide <= r'.provide && r.required <= r'.required
  {
    match s
    case ActionStmt(a) => r.(actions := r.actions + [a])
    case ActionClassStmt => r
    case LazyStmt => r
    case LoadCurrentValueStmt => r
    case PropertyStmt(n, t, o) => r.(properties := r.properties + [PropertyHash(n, t, o, notPassed)])
    case UnifiedModeStmt(v) => r.(unifiedMode := v)
    case UseStmt(p) => r.(uses := r.uses + [p])
    case ProvidesStmt(p) => r.(provide := r.provide + [p])
    case RequireStmt(g) => r.(required := r.required + [g])
  }

  /** The verb calls applied in order. */
  function ExecAll(r: Record, ss: seq<Stmt>, notPassed: Value): Record
  {
    if ss == [] then r
    else Exec(ExecAll(r, ss[..|ss| - 1], notPassed), ss[|ss| - 1], notPassed)
  }

  /** The append-only lists of the record that take one plain argument. */
  datatype ListField = Actions | Uses | Provide | Requires

  function ListOf(r: Record, f: ListField): seq<Value>
  {
    match f
    case Actions => r.actions
    case Uses => r.uses
    case Provide => r.provide
    case Requires => r.required
  }

  /** The argument a verb call adds to list f, if it is that list's verb. */
  function ArgOf(s: Stmt, f: ListField): seq<Value>
  {
    match (s, f)
    case (ActionStmt(a), Actions) => [a]
    case (UseStmt(p), Uses) => [p]
    case (ProvidesStmt(p), Provide) => [p]
    case (RequireStmt(g), Requires) => [g]
    case _ => []
  }

  /** The arguments of the calls of list f's verb, in call order. */
  function ArgsOf(ss: seq<Stmt>, f: ListField): seq<Value>
  {
    if ss == [] then [] else ArgsOf(ss[..|ss| - 1], f) + ArgOf(ss[|ss| - 1], f)
  }

  /** The property hashes of the property calls, in call order. */
  function PropertiesOf(ss: seq<Stmt>, notPassed: Value): seq<Entries>
  {
    if ss == [] then []
    else
      var last := ss[|ss| - 1];
      PropertiesOf(ss[..|ss| - 1], notPassed)
        + if last.PropertyStmt? then [PropertyHash(last.propName, last.propType, last.options, notPassed)] else []
  }

  /** The value of the last unified_mode call, or `current` when there is none. */
  function LastMode(ss: seq<Stmt>, current: Value): Value
  {
    if ss == [] then current
    else if ss[|ss| - 1].UnifiedModeStmt? then ss[|ss| - 1].mode
    else LastMode(ss[..|ss| - 1], current)
  }

  /** One verb call adds its argument to its own list and to no other. */
  lemma ExecStep(r: Record, s: Stmt, notPassed: Value)
    ensures forall f :: ListOf(Exec(r, s, notPassed), f) == ListOf(r, f) + ArgOf(s, f)
    ensures Exec(r, s, notPassed).properties ==
      r.properties + if s.PropertyStmt? then [PropertyHash(s.propName, s.propType, s.options, notPassed)] else []
    ensures Exec(r, s, notPassed).unifiedMode == if s.UnifiedModeStmt? then s.mode else r.unifiedMode
  {
    forall f ensures ListOf(Exec(r, s, notPassed), f) == ListOf(r, f) + ArgOf(s, f) {
      match f
      case Actions =>
      case Uses =>
      case Provide =>
      case Requires =>
    }
  }

  lemma {:induction false} ExecAllLists(r: Record, ss: seq<Stmt>, notPassed: Value)
    ensures ExecAll(r, ss, notPassed).name == r.name
    ensures ExecAll(r, ss, notPassed).libraries == r.libraries
    ensures forall f :: ListOf(ExecAll(r, ss, notPassed), f) == ListOf(r, f) + ArgsOf(ss, f)
  {
    if ss != [] {
      var init := ss[..|ss| - 1];
      ExecAllLists(r, init, notPassed);
      ExecStep(ExecAll(r, init, notPassed), ss[|ss| - 1], notPassed);
    }
  }

  lemma {:induction false} ExecAllProperties(r: Record, ss: seq<Stmt>, notPassed: Value)
    ensures ExecAll(r, ss, notPassed).properties == r.properties + PropertiesOf(ss, notPassed)
    ensures ExecAll(r, ss, notPassed).unifiedMode == LastMode(ss, r.unifiedMode)
  {
    if ss != [] {
      var init := ss[..|ss| - 1];
      ExecAllProperties(r, init, notPassed);
      ExecStep(ExecAll(r, init, notPassed), ss[|ss| - 1], notPassed);
    }
  }

  /**
   * What a file's verb calls do to a record: the name and the libraries are
   * untouched, each list gains the arguments of its verb's calls in order
   * (duplicates kept), and unified_mode holds the last value declared.
   */
  lemma ExecAllEffect(r: Record, ss: seq<Stmt>, notPassed: Value)
    ensures ExecAll(r, ss, notPassed).name == r.name
    ensures ExecAll(r, ss, notPassed).libraries == r.libraries
    ensures forall f :: ListOf(ExecAll(r, ss, notPassed), f) == ListOf(r, f) + ArgsOf(ss, f)
    ensures ExecAll(r, ss, notPassed).properties == r.properties + PropertiesOf(ss, notPassed)
    ensures ExecAll(r, ss, notPassed).unifiedMode == LastMode(ss, r.unifiedMode)
  {
    ExecAllLists(r, ss, notPassed);
    ExecAllProperties(r, ss, notPassed);
  }

  /** Running a file in two parts is running it whole. */
  lemma {:induction false} ExecAllAppend(r: Record, a: seq<Stmt>, b: seq<Stmt>, notPassed: Value)
    ensures ExecAll(r, a + b, notPassed) == ExecAll(ExecAll(r, a, notPassed), b, notPassed)
    decreases |b|
  {
    if b == [] {
      assert a + b == a;
    } else {
      assert (a + b)[..|a + b| - 1] == a + b[..|b| - 1];
      assert (a + b)[|a + b| - 1] == b[|b| - 1];
      ExecAllAppend(r, a, b[..|b| - 1], notPassed);
    }
  }

  predicate IsNoOp(s: Stmt)
  {
    s.ActionClassStmt? || s.LazyStmt? || s.LoadCurrentValueStmt?
  }

  /** action_class, lazy and load_current_value leave the record as it was. */
  lemma {:induction false} NoOpsChangeNothing(r: Record, ss: seq<Stmt>, notPassed: Value)
    requires forall i :: 0 <= i < |ss| ==> IsNoOp(ss[i])
    ensures ExecAll(r, ss, notPassed) == r
  {
    if ss != [] {
      NoOpsChangeNothing(r, ss[..|ss| - 1], notPassed);
    }
  }

  /** A file with no recording verb call gives a record with every list empty and unified_mode nil. */
  lemma {:induction false} NoDeclarationsEmptyRecord(name: string, ss: seq<Stmt>, notPassed: Value)
    requires forall i :: 0 <= i < |ss| ==> IsNoOp(ss[i])
    ensures ExecAll(NewRecord(name), ss, notPassed) == Record(name, [], [], [], Nil, [], [], [])
  {
    NoOpsChangeNothing(NewRecord(name), ss, notPassed);
  }

  /**
   * load_from_file on an existing file: the scanned libraries are appended,
   * then the verb calls of the rewritten text are applied.
   */
  function Load(r: Record, content: string, evaluate: string -> seq<Stmt>, notPassed: Value): Record
  {
    ExecAll(r.(libraries := r.libraries + ScanIncludes(content)), evaluate(RewriteIncludes(content)), notPassed)
  }

  /**
   * A loaded record keeps its name, lists the libraries of the include lines
   * after those it had, and gains the declarations of the rewritten text.
   */
  lemma {:induction false} LoadEffect(r: Record, content: string, evaluate: string -> seq<Stmt>, notPassed: Value)
    ensures Load(r, content, evaluate, notPassed).name == r.name
    ensures Load(r, content, evaluate, notPassed).libraries == r.libraries + ScanIncludes(content)
    ensures forall f ::
      ListOf(Load(r, content, evaluate, notPassed), f) == ListOf(r, f) + ArgsOf(evaluate(RewriteIncludes(content)), f)
    ensures Load(r, content, evaluate, notPassed).properties ==
      r.properties + PropertiesOf(evaluate(RewriteIncludes(content)), notPassed)
    ensures Load(r, content, evaluate, notPassed).unifiedMode ==
      LastMode(evaluate(RewriteIncludes(content)), r.unifiedMode)
  {
    var r0 := r.(libraries := r.libraries + ScanIncludes(content));
    var ss := evaluate(RewriteIncludes(content));
    assert Load(r, content, evaluate, notPassed) == ExecAll(r0, ss, notPassed);
    ExecAllLists(r0, ss, notPassed);
    ExecAllProperties(r0, ss, notPassed);
    forall f ensures ListOf(r0, f) == ListOf(r, f) {
      match f
      case Actions =>
      case Uses =>
      case Provide =>
      case Requires =>
    }
  }

  datatype LoadError = MissingFile(path: string)

  /** A DummyResource: its name is fixed at construction, its lists only grow. */
  class DummyResource {
    const name: string
    var actions: seq<Value>
    var libraries: seq<string>
    var properties: seq<Entries>
    var unifiedMode: Value
    var uses: seq<Value>
    var provide: seq<Value>
    var required: seq<Value>

    function View(): Record
      reads this
    {
      Record(name, actions, libraries, properties, unifiedMode, uses, provide, required)
    }

    constructor (name: string)
      ensures View() == NewRecord(name)
    {
      this.name := name;
      actions := [];
      libraries := [];
      properties := [];
      unifiedMode := Nil;
      uses := [];
      provide := [];
      required := [];
    }

    method Action(arg: Value) returns (r: seq<Value>)
      modifies this
      ensures View() == old(View()).(actions := old(actions) + [arg])
      ensures r == actions
    {
      actions := actions + [arg];
      r := actions;
    }

    method ActionClass() returns (r: Value)
      ensures r == Nil
    {
      r := Nil;
    }

    method Lazy() returns (r: Value)
      ensures r == Nil
    {
      r := Nil;
    }

    method LoadCurrentValue() returns (r: Value)
      ensures r == Nil
    {
      r := Nil;
    }

    method Property(propName: Value, propType: Option<Value>, options: Entries, notPassed: Value) returns (r: seq<Entries>)
      modifies this
      ensures View() == old(View()).(properties := old(properties) + [PropertyHash(propName, propType, options, notPassed)])
      ensures r == properties
    {
      var typeArg := if propType.Some? then propType.value else notPassed;
      var hash := Merge([(Sym("name"), propName), (Sym("type"), Arr(ArrayOf(typeArg)))], options);
      properties := properties + [hash];
      r := properties;
    }

    method UnifiedMode(val: Value) returns (r: Value)
      modifies this
      ensures View() == old(View()).(unifiedMode := val)
      ensures r == val
    {
      unifiedMode := val;
      r := val;
    }

    method Use(partial: Value) returns (r: seq<Value>)
      modifies this
      ensures View() == old(View()).(uses := old(uses) + [partial])
      ensures r == uses
    {
      uses := uses + [partial];
      r := uses;
    }

    method Provides(partial: Value) returns (r: seq<Value>)
      modifies this
      ensures View() == old(View()).(provide := old(provide) + [partial])
      ensures r == provide
    {
      provide := provide + [partial];
      r := provide;
    }

    method Require(gem: Value) returns (r: seq<Value>)
      modifies this
      ensures View() == old(View()).(required := old(required) + [gem])
      ensures r == required
    {
      required := required + [gem];
      r := required;
    }

    /** Dispatches one verb call to its method. */
    method Apply(s: Stmt, notPassed: Value)
      modifies this
      ensures View() == Exec(old(View()), s, notPassed)
    {
      match s
      case ActionStmt(a) => var _ := Action(a);
      case ActionClassStmt => var _ := ActionClass();
      case LazyStmt => var _ := Lazy();
      case LoadCurrentValueStmt => var _ := LoadCurrentValue();
      case PropertyStmt(n, t, o) => var _ := Property(n, t, o, notPassed);
      case UnifiedModeStmt(v) => var _ := UnifiedMode(v);
      case UseStmt(p) => var _ := Use(p);
      case ProvidesStmt(p) => var _ := Provides(p);
      case RequireStmt(g) => var _ := Require(g);
    }

    /** The instance_eval of a file: its verb calls, in order. */
    method Evaluate(ss: seq<Stmt>, notPassed: Value)
      modifies this
      ensures View() == ExecAll(old(View()), ss, notPassed)
    {
      var i := 0;
      while i < |ss|
        invariant 0 <= i <= |ss|
        invariant View() == ExecAll(old(View()), ss[..i], notPassed)
      {
        Apply(ss[i], notPassed);
        assert ss[..i + 1][..i] == ss[..i];
        i := i + 1;
      }
      assert ss[..|ss|] == ss;
    }

    /**
     * load_from_file: fails, changing nothing, unless `file` is an existing
     * regular file; otherwise appends the scanned libraries, evaluates the
     * rewritten text and returns the record itself.
     */
    method LoadFromFile(file: string, regularFiles: map<string, string>, evaluate: string -> seq<Stmt>, notPassed: Value)
      returns (r: Result<DummyResource, LoadError>)
      modifies this
      ensures file !in regularFiles ==> r == Failure(MissingFile(file)) && View() == old(View())
      ensures file in regularFiles ==>
        r == Success(this) && View() == Load(old(View()), regularFiles[file], evaluate, notPassed)
    {
      if file !in regularFiles {
        return Failure(MissingFile(file));
      }
      var content := regularFiles[file];
      ghost var scanned := old(View()).(libraries := old(View()).libraries + ScanIncludes(content));
      libraries := libraries + ScanIncludes(content);
      assert View() == scanned;
      var rewritten := RewriteIncludes(content);
      Evaluate(evaluate(rewritten), notPassed);
      assert View() == ExecAll(scanned, evaluate(rewritten), notPassed);
      return Success(this);
    }
  }

  /**
   * The widget scenario: `action :create`, `property :size, [String, Integer]`
   * and `use 'partial_a'` give one action, one property hash and one partial.
   */
  lemma WidgetScenario(notPassed: Value)
    ensures ExecAll(NewRecord("mycookbook_widget"),
      [ActionStmt(Sym("create")),
       PropertyStmt(Sym("size"), Some(Arr([Const("String"), Const("Integer")])), []),
       UseStmt(Str("partial_a"))], notPassed)
      == Record("mycookbook_widget", [Sym("create")], [],
           [[(Sym("name"), Sym("size")), (Sym("type"), Arr([Const("String"), Const("Integer")]))]],
           Nil, [Str("partial_a")], [], [])
  {
    var ss := [ActionStmt(Sym("create")),
       PropertyStmt(Sym("size"), Some(Arr([Const("String"), Const("Integer")])), []),
       UseStmt(Str("partial_a"))];
    var r0 := NewRecord("mycookbook_widget");
    var hash := PropertyHash(Sym("size"), Some(Arr([Const("String"), Const("Integer")])), [], notPassed);
    assert hash == [(Sym("name"), Sym("size")), (Sym("type"), Arr([Const("String"), Const("Integer")]))];
    assert ss[..1][..0] == [];
    assert ExecAll(r0, ss[..1], notPassed) == r0.(actions := [Sym("create")]);
    assert ss[..2][..1] == ss[..1];
    assert ExecAll(r0, ss[..2], notPassed) == r0.(actions := [Sym("create")], properties := [hash]);
    assert ss[..3][..2] == ss[..2] && ss[..3] == ss;
  }

  /**
   * A file whose first line includes a library: the target is recorded as
   * the only library, the line is commented out, and when a comment line
   * declares nothing only the declarations of the second line are applied;
   * the included file is never loaded.
   */
  lemma IncludedLibraryRecorded(name: string, target: string, second: string, evaluate: string -> seq<Stmt>, notPassed: Value)
    requires '\n' !in target && '\n' !in second
    requires !StartsWith(Dedent(second), IncludeKeyword)
    requires evaluate("#" + IncludePrefix + target + "\n" + second) == evaluate(second)
    ensures Load(NewRecord(name), IncludePrefix + target + "\n" + second, evaluate, notPassed)
      == ExecAll(NewRecord(name).(libraries := [target]), evaluate(second), notPassed)
  {
    IncludeOnFirstLine(target, second);
    var content := IncludePrefix + target + "\n" + second;
    assert NewRecord(name).libraries + ScanIncludes(content) == [target];
  }
}
