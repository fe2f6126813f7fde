/**
 * The data every variant of the serializer works on: Python values as the
 * dumpers see them, objects as attribute bags, selector lists with their
 * per-key argument dictionaries, and the `empty` sentinel.
 */
module Values {

  import opened Wrappers
  import Dates

  /** The `type(f).__name__` of a callable: only `function` and `instancemethod` are invoked by `is_callable`. */
  datatype FnKind = PlainFunction | BoundMethod | OtherCallable(typeName: string)

  /**
   * What a callable returns, by the shape of the call: no arguments,
   * `f(*list)`, `f(**dict)` and `f(x)`.  The serializer, bourne and
   * json_alchemy variants only ever make the first kind of call.
   */
  datatype CallResults = CallResults(noArgs: Value, positional: Value, keyword: Value, single: Value)

  datatype Value =
    | Missing                                 // the module-level `empty = Empty()` sentinel
    | Null                                    // None
    | Bool(b: bool)
    | Int(i: int)
    | Str(s: string)
    | Date(date: Dates.Date)
    | DateTime(dateTime: Dates.DateTime)
    | EnumType                                // an instance of sqlalchemy.types.Enum
    | List(items: seq<Value>, cls: string)    // cls is "list", or the name of a subclass of list
    | Dict(entries: map<string, Value>)
    | Obj(obj: Object)
    | Fn(kind: FnKind, results: CallResults)

  /**
   * An object exposed to the engine: its class and base classes (for
   * `isinstance` and `__class__.__name__`), what `attributes()` and
   * `attribute_sets()` return, and its attribute bag standing in for
   * `hasattr`/`getattr` (the first field with a name is the attribute).
   */
  datatype Object = Object(cls: string, bases: set<string>, attributes: seq<Selector>,
                           attrSets: seq<AttrSet>, fields: seq<Field>)

  datatype Field = Field(name: string, value: Value)

  /** One entry of the `attribute_sets()` dictionary. */
  datatype AttrSet = AttrSet(name: string, members: seq<Selector>)

  /** An `only`/`include` argument: absent or None, or a list of selectors. */
  datatype Selectors = Unset | Given(list: seq<Selector>)

  /** An element of a selection list: a bare key, or a `(key, args)` tuple. */
  datatype Selector = Bare(key: string) | Pair(key: string, args: Args)

  /**
   * A per-key argument dictionary; each field is `None` when the key is
   * absent.  Only sqlalchemy_serializers reads `default`, `attr` and
   * `func_args`.
   */
  datatype Args = Args(only: Selectors, exclude: Option<seq<string>>, includes: Selectors,
                       default: Option<Value>, attr: Option<AttrSource>, funcArgs: Option<FuncArgs>)

  /** `args['attr']`: an attribute name, or a plain function used as the value itself. */
  datatype AttrSource = AttrName(name: string) | AttrFunction(results: CallResults)

  /** `args['func_args']`: a list, a dictionary, or any other single value. */
  datatype FuncArgs = Positional(values: seq<Value>) | Keyword(kwargs: map<string, Value>) | Single(value: Value)

  /** The exceptions the core raises on inputs it accepts. */
  datatype Error =
    | UnpackError(key: string)          // `model_attr, alias = unpack_key(key)` with more than one " as "
    | StrftimeYearError(year: int)      // Python 2 strftime refuses years before 1900
    | HandlerTypeError(cls: string)     // a built-in handler met an object of a user class that shares its key

  /** The empty dictionary `{}`. */
  const NoArgs := Args(Unset, None, Unset, None, None, None)

  /** `if only:` — a selector list counts only when it is given and non-empty. */
  predicate Truthy(s: Selectors)
  {
    s.Given? && s.list != []
  }

  /** `value.__class__.__name__`. */
  function ClassName(v: Value): string
  {
    match v
    case Missing => "Empty"
    case Null => "NoneType"
    case Bool(_) => "bool"
    case Int(_) => "int"
    case Str(_) => "str"
    case Date(_) => "date"
    case DateTime(_) => "datetime"
    case EnumType => "Enum"
    case List(_, c) => c
    case Dict(_) => "dict"
    case Obj(o) => o.cls
    case Fn(PlainFunction, _) => "function"
    case Fn(BoundMethod, _) => "instancemethod"
    case Fn(OtherCallable(n), _) => n
  }

  /** The names `n` for which `isinstance(v, n)` holds. */
  function Ancestors(v: Value): (r: set<string>)
    ensures ClassName(v) in r
    ensures "object" in r
  {
    match v
    case Missing => {"Empty", "object"}
    case Bool(_) => {"bool", "int", "object"}
    case Str(_) => {"str", "basestring", "object"}
    case DateTime(_) => {"datetime", "date", "object"}
    case List(_, c) => {c, "list", "object"}
    case Obj(o) => {o.cls, "object"} + o.bases
    case _ => {ClassName(v), "object"}
  }

  /** `isinstance(v, t)`. */
  predicate IsInstance(v: Value, t: string)
  {
    t in Ancestors(v)
  }

  /** Every value is an instance of its own class and of `object`. */
  lemma InstanceOfOwnClass(v: Value)
    ensures IsInstance(v, ClassName(v)) && IsInstance(v, "object")
  {
  }

  /** `is_callable`: the type's name is `instancemethod` or `function`. */
  predicate IsCallable(v: Value)
    ensures IsCallable(v) ==> v.Fn?
    ensures v.Fn? && (v.kind.PlainFunction? || v.kind.BoundMethod?) ==> IsCallable(v)
  {
    v.Fn? && ClassName(v) in {"function", "instancemethod"}
  }

  /** `getattr(obj, name)` when `hasattr(obj, name)`, else `None`. */
  function GetAttr(fields: seq<Field>, name: string): (r: Option<Value>)
    ensures r.Some? ==> Size(r.value) <= FieldsSize(fields)
    ensures r.Some? <==> exists i :: 0 <= i < |fields| && fields[i].name == name
    ensures r.Some? ==> exists i :: 0 <= i < |fields| && fields[i].name == name && r.value == fields[i].value
                                    && forall j :: 0 <= j < i ==> fields[j].name != name
  {
    if fields == [] then None
    else if fields[0].name == name then Some(fields[0].value)
    else
      var r := GetAttr(fields[1..], name);
      assert forall i :: 1 <= i < |fields| ==> fields[i] == fields[1..][i - 1];
      r
  }

  /** `attr_sets[key]` when `key in attr_sets`, else `None`. */
  function SetMembers(sets: seq<AttrSet>, name: string): (r: Option<seq<Selector>>)
    ensures r.Some? ==> SelectorsSize(r.value) <= SetsSize(sets)
    ensures r.Some? <==> exists i :: 0 <= i < |sets| && sets[i].name == name
    ensures r.Some? ==> exists i :: 0 <= i < |sets| && sets[i].name == name && r.value == sets[i].members
                                    && forall j :: 0 <= j < i ==> sets[j].name != name
  {
    if sets == [] then None
    else if sets[0].name == name then Some(sets[0].members)
    else
      var r := SetMembers(sets[1..], name);
      assert forall i :: 1 <= i < |sets| ==> sets[i] == sets[1..][i - 1];
      r
  }

  // ---------------------------------------------------------------------
  // Sizes: a measure that every recursive call of the dumpers decreases.
  // Arguments count only where a dumper recurses into them.
  // ---------------------------------------------------------------------

  ghost function Size(v: Value): (n: nat)
    ensures n >= 1
  {
    match v
    case List(xs, _) => 1 + ValuesSize(xs)
    case Obj(o) => 1 + ObjectCore(o) + SelectorsSize(o.attributes)
    case Fn(_, r) => 1 + ResultsSize(r)
    case _ => 1
  }

  ghost function ResultsSize(r: CallResults): nat
  {
    Size(r.noArgs) + Size(r.positional) + Size(r.keyword) + Size(r.single)
  }

  ghost function ValuesSize(xs: seq<Value>): nat
  {
    if xs == [] then 0 else Size(xs[0]) + ValuesSize(xs[1..])
  }

  ghost function FieldsSize(fs: seq<Field>): nat
  {
    if fs == [] then 0 else Size(fs[0].value) + FieldsSize(fs[1..])
  }

  ghost function SetsSize(ss: seq<AttrSet>): nat
  {
    if ss == [] then 0 else SelectorsSize(ss[0].members) + SetsSize(ss[1..])
  }

  /** The part of an object a nested selection reads besides its selector list. */
  ghost function ObjectCore(o: Object): nat
  {
    FieldsSize(o.fields) + SetsSize(o.attrSets)
  }

  ghost function SelectorsSize(ss: seq<Selector>): nat
  {
    if ss == [] then 0 else SelectorsSize(ss[..|ss| - 1]) + SelectorSize(ss[|ss| - 1])
  }

  ghost function SelectorSize(s: Selector): (n: nat)
    ensures n >= 3
  {
    match s
    case Bare(_) => 3  // two more than ArgsSize(NoArgs)
    case Pair(_, a) => 2 + ArgsSize(a) + AttrSize(a.attr)
  }

  ghost function OptSelectorsSize(s: Selectors): nat
  {
    match s
    case Unset => 0
    case Given(list) => SelectorsSize(list)
  }

  /** What a dumper reads of an argument dictionary: the forwarded selections and the default. */
  ghost function ArgsSize(a: Args): (n: nat)
    ensures n >= 1
  {
    1 + OptSelectorsSize(a.only) + OptSelectorsSize(a.includes)
    + (match a.default case Some(d) => Size(d) case None => 0)
  }

  ghost function AttrSize(a: Option<AttrSource>): nat
  {
    match a
    case Some(AttrFunction(r)) => 1 + ResultsSize(r)
    case _ => 0
  }

  lemma {:induction false} ElementSmaller(xs: seq<Value>, i: int)
    requires 0 <= i < |xs|
    ensures Size(xs[i]) <= ValuesSize(xs)
  {
    if i > 0 {
      ElementSmaller(xs[1..], i - 1);
    }
  }

  lemma {:induction false} PrefixSelectorsSmaller(ss: seq<Selector>, n: nat)
    requires n <= |ss|
    ensures SelectorsSize(ss[..n]) <= SelectorsSize(ss)
    decreases |ss|
  {
    if n < |ss| {
      assert ss[..|ss| - 1][..n] == ss[..n];
      PrefixSelectorsSmaller(ss[..|ss| - 1], n);
    } else {
      assert ss[..n] == ss;
    }
  }

  lemma SelectorSmaller(ss: seq<Selector>, i: int)
    requires 0 <= i < |ss|
    ensures SelectorSize(ss[i]) <= SelectorsSize(ss)
  {
    PrefixSelectorsSmaller(ss, i + 1);
    assert ss[..i + 1][..i] == ss[..i];
  }
}
