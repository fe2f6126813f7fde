/**
 * The dumping engine the serializer, bourne and json_alchemy variants share:
 * `dumps` calls a function or bound method once and normalises the result;
 * `serialize` (`jsonify_model`) selects the attributes of an object;
 * `serialize_iterable` (`jsonify_iterable`) walks a selector list, expanding
 * attribute sets and aliases; `serialize_attribute` (`jsonify_attribute`)
 * reads one attribute.  The variants differ only in how a non-callable value
 * is normalised, which is the `Dispatch` parameter: a registry of dumpers
 * (serializer, bourne) or a fixed chain of type tests (json_alchemy).
 */
module Engine {

  import opened Wrappers
  import opened Values
  import Dates
  import Keys

  /** A key of `OBJECT_DUMPERS`: a class (matched with `isinstance`) or a class name (compared exactly). */
  datatype DumperKey = TypeKey(name: string) | NameKey(name: string)

  /** The constant a user-registered dumper returns. */
  datatype Scalar = SNull | SBool(b: bool) | SInt(i: int) | SStr(s: string)

  datatype Handler =
    | NestedHandler      // serialize / jsonify_model of the object with copy_args of the dictionary
    | StrftimeHandler    // strftime('%Y-%m-%dT%H:%M:%SZ') of a datetime
    | IsoZHandler        // isoformat() + 'Z' of a datetime
    | IsoDateHandler     // isoformat() of a date
    | ListHandler        // dumps of every element, in a new list
    | ConstHandler(c: Scalar)

  datatype Entry = Entry(key: DumperKey, handler: Handler)

  /** How a non-callable value is normalised. */
  datatype Dispatch = Registry(entries: seq<Entry>) | ElifChain

  /** serializer's initial `OBJECT_DUMPERS`. */
  const SerializerDumpers: seq<Entry> := [
    Entry(TypeKey("Serializable"), NestedHandler),
    Entry(NameKey("datetime"), StrftimeHandler),
    Entry(NameKey("date"), IsoDateHandler),
    Entry(TypeKey("list"), ListHandler)
  ]

  /** bourne's initial `OBJECT_DUMPERS`: the list key is a name, so subclasses of list are not matched. */
  const BourneDumpers: seq<Entry> := [
    Entry(TypeKey("BourneMixin"), NestedHandler),
    Entry(NameKey("datetime"), IsoZHandler),
    Entry(NameKey("date"), IsoDateHandler),
    Entry(NameKey("list"), ListHandler)
  ]

  /** The dictionary invariant of `OBJECT_DUMPERS`: no key occurs twice. */
  predicate UniqueKeys(es: seq<Entry>)
  {
    forall i, j :: 0 <= i < j < |es| ==> es[i].key != es[j].key
  }

  /** The mixin json_alchemy's chain serializes as a nested model. */
  const JsonMixin := "JSONMixin"

  function ScalarValue(c: Scalar): (v: Value)
    ensures Size(v) == 1 && !IsCallable(v) && !v.Missing?
  {
    match c
    case SNull => Null
    case SBool(b) => Bool(b)
    case SInt(i) => Int(i)
    case SStr(s) => Str(s)
  }

  /** The loop test of `dump_object`: exact class name for a string key, `isinstance` for a class key. */
  predicate Matches(k: DumperKey, v: Value)
    ensures Matches(k, v) ==> IsInstance(v, k.name)
  {
    match k
    case NameKey(n) => ClassName(v) == n
    case TypeKey(n) => IsInstance(v, n)
  }

  /** `dumps`: a function or bound method is called once with no arguments, then the result is normalised. */
  function Dumps(v: Value, args: Args, d: Dispatch): (r: Result<Value, Error>)
    ensures r.Ok? ==> Size(r.value) <= Size(v)
    decreases Size(v) + ArgsSize(args), 3
  {
    if IsCallable(v) then
      assert Size(v.results.noArgs) <= ResultsSize(v.results);
      DumpObject(v.results.noArgs, args, d)
    else DumpObject(v, args, d)
  }

  /** `dump_object` (serializer, bourne) or `dump_non_callable` (json_alchemy). */
  function DumpObject(v: Value, args: Args, d: Dispatch): (r: Result<Value, Error>)
    ensures r.Ok? ==> Size(r.value) <= Size(v)
    decreases Size(v) + ArgsSize(args), 2
  {
    match d
    case Registry(_) => ApplyDumpers(v, args, d, 0, v)
    case ElifChain => DumpNonCallable(v, args)
  }

  /**
   * The loop of `dump_object` from entry `i` on: every key is tried once,
   * in order, against the value the previous handlers left, and a matching
   * handler replaces it.
   */
  function ApplyDumpers(orig: Value, args: Args, d: Dispatch, i: nat, cur: Value): (r: Result<Value, Error>)
    requires d.Registry? && i <= |d.entries|
    requires Size(cur) <= Size(orig)
    ensures r.Ok? ==> Size(r.value) <= Size(orig)
    decreases Size(orig) + ArgsSize(args), 1, |d.entries| - i
  {
    if i == |d.entries| then Ok(cur)
    else if Matches(d.entries[i].key, cur) then
      var next :- Apply(d.entries[i].handler, cur, args, d);
      ApplyDumpers(orig, args, d, i + 1, next)
    else ApplyDumpers(orig, args, d, i + 1, cur)
  }

  /**
   * One built-in or registered handler.  The built-in handlers are written
   * for the value shape their key selects; a user class that shares the key
   * raises instead.  Dates are always true in Python 2, so the `if a else
   * None` of the date handlers never yields None.
   */
  function Apply(h: Handler, cur: Value, args: Args, d: Dispatch): (r: Result<Value, Error>)
    ensures r.Ok? ==> Size(r.value) <= Size(cur)
    decreases Size(cur) + ArgsSize(args), 0
  {
    match h
    case NestedHandler =>
      if cur.Obj? then
        var c := Keys.CopyArgs(args);
        var m :- Serialize(cur.obj, c.only, c.exclude, c.includes, d);
        Ok(Dict(m))
      else Err(HandlerTypeError(ClassName(cur)))
    case StrftimeHandler =>
      if !cur.DateTime? then Err(HandlerTypeError(ClassName(cur)))
      else if cur.dateTime.date.year < 1900 then Err(StrftimeYearError(cur.dateTime.date.year))
      else Ok(Str(Dates.StrftimeZ(cur.dateTime)))
    case IsoZHandler =>
      if cur.DateTime? then Ok(Str(Dates.IsoDateTimeZ(cur.dateTime))) else Err(HandlerTypeError(ClassName(cur)))
    case IsoDateHandler =>
      if cur.Date? then Ok(Str(Dates.FormatDate(cur.date))) else Err(HandlerTypeError(ClassName(cur)))
    case ListHandler =>
      if cur.List? then
        var ys :- DumpList(cur.items, args, d);
        Ok(List(ys, "list"))
      else Err(HandlerTypeError(ClassName(cur)))
    case ConstHandler(c) => Ok(ScalarValue(c))
  }

  /**
   * json_alchemy's `dump_non_callable`: the first of the tests JSONMixin,
   * list, datetime, date, Enum that holds decides; anything else is
   * returned as it is.
   */
  function DumpNonCallable(v: Value, args: Args): (r: Result<Value, Error>)
    ensures r.Ok? ==> Size(r.value) <= Size(v)
    decreases Size(v) + ArgsSize(args), 1
  {
    if IsInstance(v, JsonMixin) then
      if v.Obj? then
        var c := Keys.CopyArgs(args);
        var m :- Serialize(v.obj, c.only, c.exclude, c.includes, ElifChain);
        Ok(Dict(m))
      else Err(HandlerTypeError(ClassName(v)))
    else if IsInstance(v, "list") then
      if v.List? then
        var ys :- DumpList(v.items, args, ElifChain);
        Ok(List(ys, "list"))
      else Err(HandlerTypeError(ClassName(v)))
    else if IsInstance(v, "datetime") then
      if v.DateTime? then Ok(Str(Dates.IsoDateTimeZ(v.dateTime))) else Err(HandlerTypeError(ClassName(v)))
    else if IsInstance(v, "date") then
      if v.Date? then Ok(Str(Dates.FormatDate(v.date))) else Err(HandlerTypeError(ClassName(v)))
    else if IsInstance(v, "Enum") then Ok(Null)
    else Ok(v)
  }

  /** `[dumps(c, b) for c in a]`: every element with the same dictionary, in order; the first error is raised. */
  function DumpList(xs: seq<Value>, args: Args, d: Dispatch): (r: Result<seq<Value>, Error>)
    ensures r.Ok? ==> |r.value| == |xs| && ValuesSize(r.value) <= ValuesSize(xs)
    decreases ValuesSize(xs) + ArgsSize(args), 4
  {
    if xs == [] then Ok([])
    else
      var y :- Dumps(xs[0], args, d);
      var ys :- DumpList(xs[1..], args, d);
      assert ([y] + ys)[1..] == ys;
      Ok([y] + ys)
  }

  /**
   * `serialize` / `jsonify_model`: a truthy `only` replaces the object's
   * `attributes()` and switches `exclude` off; a truthy `include` is
   * selected afterwards, without `exclude`, and overrides; `empty` values
   * are dropped at the end.
   */
  function Serialize(o: Object, only: Selectors, exclude: Option<seq<string>>, includes: Selectors, d: Dispatch)
    : (r: Result<map<string, Value>, Error>)
    ensures r.Ok? ==> forall k :: k in r.value ==> r.value[k] != Missing
    decreases Size(Obj(o)) + OptSelectorsSize(only) + OptSelectorsSize(includes), 6
  {
    var base :- if Truthy(only) then SerializeIterable(o, only.list, None, d)
                else SerializeIterable(o, o.attributes, exclude, d);
    var extra :- if Truthy(includes) then SerializeIterable(o, includes.list, None, d) else Ok(map[]);
    Ok(Keys.Cleanup(base + extra))
  }

  /**
   * `serialize_iterable` / `jsonify_iterable` over the selectors in order;
   * written as the dictionary after all but the last selector, updated by
   * the last one, so a later write to the same output key wins.
   */
  function SerializeIterable(o: Object, sels: seq<Selector>, exclude: Option<seq<string>>, d: Dispatch)
    : (r: Result<map<string, Value>, Error>)
    ensures (forall i :: 0 <= i < |sels| ==> Keys.Excluded(sels[i].key, exclude)) ==> r == Ok(map[])
    decreases ObjectCore(o) + SelectorsSize(sels), 5
  {
    if sels == [] then Ok(map[])
    else
      var before :- SerializeIterable(o, sels[..|sels| - 1], exclude, d);
      var (key, args) := Keys.UnpackArgs(sels[|sels| - 1]);
      if Keys.Excluded(key, exclude) then Ok(before)
      else
        var written :- SelectorEntries(o, key, args, d);
        Ok(before + written)
  }

  /**
   * What one selector writes: the key of an attribute set expands to the
   * set's members (its own arguments are not used); any other key is split
   * at its alias and read as one attribute.
   */
  function SelectorEntries(o: Object, key: string, args: Args, d: Dispatch): (r: Result<map<string, Value>, Error>)
    ensures r.Ok? && SetMembers(o.attrSets, key).None? ==>
              Keys.UnpackKey(key).Ok? && r.value.Keys == {Keys.UnpackKey(key).value.1}
    decreases ObjectCore(o) + ArgsSize(args) + AttrSize(args.attr) + 2, 4
  {
    match SetMembers(o.attrSets, key)
    case Some(members) => ExpandSet(o, members, d)
    case None => AttributeEntry(o, key, args, d)
  }

  /** The members of an attribute set in order, each split at its alias and read with its own arguments; members are never expanded again. */
  function ExpandSet(o: Object, members: seq<Selector>, d: Dispatch): (r: Result<map<string, Value>, Error>)
    ensures r.Ok? ==> forall k :: k in r.value ==>
              exists i :: 0 <= i < |members| && Keys.UnpackKey(members[i].key).Ok? && Keys.UnpackKey(members[i].key).value.1 == k
    decreases FieldsSize(o.fields) + SelectorsSize(members), 3
  {
    if members == [] then Ok(map[])
    else
      var before :- ExpandSet(o, members[..|members| - 1], d);
      var (key, args) := Keys.UnpackArgs(members[|members| - 1]);
      var written :- AttributeEntry(o, key, args, d);
      Ok(before + written)
  }

  /** A key that is not a set name: split at its alias, the attribute read and written under the alias. */
  function AttributeEntry(o: Object, key: string, args: Args, d: Dispatch): (r: Result<map<string, Value>, Error>)
    ensures r.Ok? ==> Keys.UnpackKey(key).Ok? && r.value.Keys == {Keys.UnpackKey(key).value.1}
    decreases FieldsSize(o.fields) + ArgsSize(args) + 2, 2
  {
    var names :- Keys.UnpackKey(key);
    var value :- SerializeAttribute(o, names.0, args, d);
    Ok(map[names.1 := value])
  }

  /** The attribute's value when the object has it, `empty` otherwise. */
  function AttributeValue(o: Object, attr: string): (v: Value)
    ensures Size(v) <= FieldsSize(o.fields) + 1
    ensures GetAttr(o.fields, attr).None? <==> v == Missing && forall f :: f in o.fields ==> f.name != attr
    ensures forall i :: 0 <= i < |o.fields| && o.fields[i].name == attr && (forall j :: 0 <= j < i ==> o.fields[j].name != attr)
                        ==> v == o.fields[i].value
  {
    match GetAttr(o.fields, attr)
    case Some(v) => v
    case None => Missing
  }

  /** `serialize_attribute` / `jsonify_attribute`: the attribute (or `empty`) through `dumps`. */
  function SerializeAttribute(o: Object, attr: string, args: Args, d: Dispatch): (r: Result<Value, Error>)
    ensures GetAttr(o.fields, attr).Some? ==> r == Dumps(GetAttr(o.fields, attr).value, args, d)
    ensures GetAttr(o.fields, attr).None? ==> r == Dumps(Missing, args, d)
    decreases FieldsSize(o.fields) + ArgsSize(args) + 2, 1
  {
    Dumps(AttributeValue(o, attr), args, d)
  }
}
