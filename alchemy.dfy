/**
 * The sqlalchemy_serializers variant: `dumps` with `default`,
 * `dump_callable` with `func_args`, json_alchemy's chain of type tests,
 * selection without " as " aliasing, and `jsonify_attribute` with `attr`.
 * Nothing in this variant raises on the values modelled here, so its
 * functions return plain values.
 */
module Alchemy {

  import opened Wrappers
  import opened Values
  import Dates
  import Keys

  const JsonMixin := "JSONMixin"

  /** `dump_callable`: a function or bound method is called in the shape `func_args` asks for. */
  function DumpCallable(v: Value, args: Args): (r: Value)
    ensures Size(r) <= Size(v)
    ensures !IsCallable(v) ==> r == v
    ensures IsCallable(v) ==> r in {v.results.noArgs, v.results.positional, v.results.keyword, v.results.single}
  {
    if !IsCallable(v) then v
    else
      var res := v.results;
      assert Size(res.noArgs) + Size(res.positional) + Size(res.keyword) + Size(res.single) < Size(v);
      match args.funcArgs
      case None => res.noArgs                                        // func_args = [], so value(*[])
      case Some(Positional(xs)) => if xs == [] then res.noArgs else res.positional
      case Some(Keyword(kw)) => if kw == map[] then res.noArgs else res.keyword
      case Some(Single(_)) => res.single
  }

  /**
   * `dumps`: the call, the chain, and then, when the result is None and the
   * dictionary has a `default`, the default dumped with the copied
   * dictionary (which has no `default`, so this happens at most once).
   */
  function Dumps(v: Value, args: Args): (r: Value)
    ensures v == Missing ==> r == Missing
    decreases Size(v) + ArgsSize(args), 3
  {
    var value := DumpNonCallable(DumpCallable(v, args), args);
    if args.default.Some? && value == Null then
      Dumps(args.default.value, Keys.CopyArgs(args))
    else value
  }

  /** `dump_non_callable`: the first of the tests JSONMixin, list, datetime, date, Enum that holds decides. */
  function DumpNonCallable(v: Value, args: Args): (r: Value)
    ensures v.List? ==> r.List? && r.cls == "list" && |r.items| == |v.items|
    ensures v.DateTime? ==> r.Str? && Dates.ParseDateTimeZ(r.s) == Some(v.dateTime)
    ensures v.Date? ==> r.Str? && Dates.ParseDate(r.s) == Some(v.date)
    ensures !v.Obj? && !v.List? && !v.DateTime? && !v.Date? && !IsInstance(v, "Enum") ==> r == v
    decreases Size(v) + ArgsSize(args), 2
  {
    if v.Obj? && IsInstance(v, JsonMixin) then
      var c := Keys.CopyArgs(args);
      Dict(JsonifyModel(v.obj, c.only, c.exclude, c.includes))
    else if v.List? then List(DumpList(v.items, args), "list")
    else if v.DateTime? then
      Dates.DateTimeZRoundTrip(v.dateTime);
      Str(Dates.IsoDateTimeZ(v.dateTime))
    else if v.Date? then
      Dates.DateRoundTrip(v.date);
      Str(Dates.FormatDate(v.date))
    else if IsInstance(v, "Enum") then Null
    else v
  }

  /** The loop of the list branch: every element dumped with the same, full dictionary. */
  function DumpList(xs: seq<Value>, args: Args): (r: seq<Value>)
    ensures |r| == |xs|
    decreases ValuesSize(xs) + ArgsSize(args), 4
  {
    if xs == [] then [] else [Dumps(xs[0], args)] + DumpList(xs[1..], args)
  }

  /** `jsonify_model`: `only` or `attributes()` less `exclude`, updated by `include`, then `cleanup`. */
  function JsonifyModel(o: Object, only: Selectors, exclude: Option<seq<string>>, includes: Selectors)
    : (r: map<string, Value>)
    ensures forall k :: k in r ==> r[k] != Missing
    decreases Size(Obj(o)) + OptSelectorsSize(only) + OptSelectorsSize(includes), 6
  {
    var base := if Truthy(only) then JsonifyIterable(o, only.list, None) else JsonifyIterable(o, o.attributes, exclude);
    var extra := if Truthy(includes) then JsonifyIterable(o, includes.list, None) else map[];
    Keys.Cleanup(base + extra)
  }

  /**
   * `jsonify_iterable`: the selectors in order, each written under its own
   * key, or, for the key of an attribute set, each member under the
   * member's key.
   */
  function JsonifyIterable(o: Object, sels: seq<Selector>, exclude: Option<seq<string>>): (r: map<string, Value>)
    ensures (forall i :: 0 <= i < |sels| ==> Keys.Excluded(sels[i].key, exclude)) ==> r == map[]
    decreases ObjectCore(o) + SelectorsSize(sels), 5
  {
    if sels == [] then map[]
    else
      var before := JsonifyIterable(o, sels[..|sels| - 1], exclude);
      var (key, args) := Keys.UnpackArgs(sels[|sels| - 1]);
      if Keys.Excluded(key, exclude) then before
      else
        match SetMembers(o.attrSets, key)
        case Some(members) => before + SetEntries(o, members)
        case None => before[key := JsonifyAttribute(o, key, args)]
  }

  /** The members of an attribute set, each under its own key, read with its own dictionary. */
  function SetEntries(o: Object, members: seq<Selector>): (r: map<string, Value>)
    ensures forall k :: k in r ==> exists i :: 0 <= i < |members| && members[i].key == k
    decreases FieldsSize(o.fields) + SelectorsSize(members), 3
  {
    if members == [] then map[]
    else
      var (key, args) := Keys.UnpackArgs(members[|members| - 1]);
      SetEntries(o, members[..|members| - 1])[key := JsonifyAttribute(o, key, args)]
  }

  /** The dictionary `jsonify_attribute` reads: `attr` defaults to the key. */
  function WithAttr(args: Args, key: string): (r: Args)
    ensures r.attr.Some? && ArgsSize(r) == ArgsSize(args) && AttrSize(r.attr) <= AttrSize(args.attr)
    ensures args.attr.Some? ==> r == args
    ensures args.attr.None? ==> r == args.(attr := Some(AttrName(key)))
  {
    if args.attr.Some? then args else args.(attr := Some(AttrName(key)))
  }

  /** The value `jsonify_attribute` starts from: a plain function given as `attr`, or the named attribute, or `empty`. */
  function AttrValue(o: Object, a: AttrSource): (v: Value)
    ensures Size(v) <= FieldsSize(o.fields) + AttrSize(Some(a)) + 1
    ensures a.AttrFunction? ==> v == Fn(PlainFunction, a.results)
    ensures a.AttrName? ==> v == if GetAttr(o.fields, a.name).Some? then GetAttr(o.fields, a.name).value else Missing
  {
    match a
    case AttrFunction(res) => Fn(PlainFunction, res)
    case AttrName(n) => match GetAttr(o.fields, n) case Some(x) => x case None => Missing
  }

  /** `jsonify_attribute`, read without its side effect on the caller's dictionary. */
  function JsonifyAttribute(o: Object, key: string, args: Args): (r: Value)
    ensures args.attr.None? && GetAttr(o.fields, key).None? ==> r == Missing
    ensures args.attr.Some? && args.attr.value.AttrName? && GetAttr(o.fields, args.attr.value.name).None? ==> r == Missing
    decreases FieldsSize(o.fields) + ArgsSize(args) + AttrSize(args.attr) + 2, 1
  {
    var a := WithAttr(args, key);
    Dumps(AttrValue(o, a.attr.value), a)
  }
}
