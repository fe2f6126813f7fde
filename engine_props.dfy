/**
 * Properties of the shared engine: how `only`, `exclude` and `include`
 * choose the selectors, how a selector list writes its dictionary, and what
 * the built-in normalisation does to each kind of value.  The registry
 * lemmas hold for the built-in entries in any order.
 */
module EngineProps {

  import opened Wrappers
  import opened Values
  import opened Engine
  import Dates
  import Keys

  // ---------------------------------------------------------------------
  // Selection
  // ---------------------------------------------------------------------

  /** The selectors that survive `exclude`, matched on the raw key. */
  function Kept(sels: seq<Selector>, exclude: Option<seq<string>>): (r: seq<Selector>)
    ensures |r| <= |sels|
  {
    if sels == [] then []
    else
      var last := sels[|sels| - 1];
      Kept(sels[..|sels| - 1], exclude) + (if Keys.Excluded(last.key, exclude) then [] else [last])
  }

  /** `Kept` keeps exactly the selectors whose raw key is not excluded. */
  lemma {:induction false} KeptMembers(sels: seq<Selector>, exclude: Option<seq<string>>)
    ensures forall s :: s in Kept(sels, exclude) <==> s in sels && !Keys.Excluded(s.key, exclude)
  {
    if sels != [] {
      var init, last := sels[..|sels| - 1], sels[|sels| - 1];
      assert sels == init + [last];
      KeptMembers(init, exclude);
    }
  }

  /** One dictionary updated by another, errors propagating in evaluation order. */
  function Then(a: Result<map<string, Value>, Error>, b: Result<map<string, Value>, Error>)
    : (r: Result<map<string, Value>, Error>)
    ensures r.Ok? <==> a.Ok? && b.Ok?
    ensures r.Ok? ==> r.value == a.value + b.value
  {
    if a.Err? then a else if b.Err? then b else Ok(a.value + b.value)
  }

  lemma ThenAssoc(a: Result<map<string, Value>, Error>, b: Result<map<string, Value>, Error>,
                  c: Result<map<string, Value>, Error>)
    ensures Then(Then(a, b), c) == Then(a, Then(b, c))
  {
    if a.Ok? && b.Ok? && c.Ok? {
      assert (a.value + b.value) + c.value == a.value + (b.value + c.value);
    }
  }

  /** `dumps` unfolded: the call, then the dispatch. */
  lemma Unfold(v: Value, args: Args, d: Dispatch)
    ensures Dumps(v, args, d) == DumpObject(if IsCallable(v) then v.results.noArgs else v, args, d)
    ensures DumpObject(v, args, d) == if d.Registry? then ApplyDumpers(v, args, d, 0, v) else DumpNonCallable(v, args)
  {
  }

  /** `serialize_iterable` unfolded at its last selector. */
  lemma IterableSnoc(o: Object, init: seq<Selector>, last: Selector, exclude: Option<seq<string>>, d: Dispatch)
    ensures SerializeIterable(o, init + [last], exclude, d) ==
            if Keys.Excluded(last.key, exclude) then SerializeIterable(o, init, exclude, d)
            else Then(SerializeIterable(o, init, exclude, d), SelectorEntries(o, last.key, Keys.UnpackArgs(last).1, d))
  {
    var sels := init + [last];
    assert sels[..|sels| - 1] == init && sels[|sels| - 1] == last;
  }

  /** Skipping excluded selectors is the same as walking the list they leave. */
  lemma {:induction false} ExcludeIsFilter(o: Object, sels: seq<Selector>, exclude: Option<seq<string>>, d: Dispatch)
    ensures SerializeIterable(o, sels, exclude, d) == SerializeIterable(o, Kept(sels, exclude), None, d)
  {
    if sels != [] {
      var init, last := sels[..|sels| - 1], sels[|sels| - 1];
      assert sels == init + [last];
      ExcludeIsFilter(o, init, exclude, d);
      IterableSnoc(o, init, last, exclude, d);
      if !Keys.Excluded(last.key, exclude) {
        IterableSnoc(o, Kept(init, exclude), last, None, d);
      } else {
        assert Kept(sels, exclude) == Kept(init, exclude) + [];
        assert Kept(init, exclude) + [] == Kept(init, exclude);
      }
    }
  }

  /**
   * The selection of `serialize` / `jsonify_model`: the truthy `only` list,
   * where `exclude` plays no part, or `attributes()` less the excluded raw
   * keys; then `include`, never filtered, written over it; then `cleanup`.
   */
  lemma Selection(o: Object, only: Selectors, exclude: Option<seq<string>>, includes: Selectors, d: Dispatch)
    ensures Serialize(o, only, exclude, includes, d) ==
            var base := if Truthy(only) then SerializeIterable(o, only.list, None, d)
                        else SerializeIterable(o, Kept(o.attributes, exclude), None, d);
            var extra := if Truthy(includes) then SerializeIterable(o, includes.list, None, d) else Ok(map[]);
            var merged := Then(base, extra);
            if merged.Ok? then Ok(Keys.Cleanup(merged.value)) else merged
  {
    ExcludeIsFilter(o, o.attributes, exclude, d);
  }

  /** An `only` that is absent, None or empty selects like no `only` at all. */
  lemma FalsyOnly(o: Object, only: Selectors, exclude: Option<seq<string>>, includes: Selectors, d: Dispatch)
    requires !Truthy(only)
    ensures Serialize(o, only, exclude, includes, d) == Serialize(o, Unset, exclude, includes, d)
  {
  }

  /**
   * A selector list is written left to right: the dictionary of `xs + ys`
   * is that of `xs` updated by that of `ys`, so the last write to an output
   * key wins.
   */
  lemma {:induction false} IterableConcat(o: Object, xs: seq<Selector>, ys: seq<Selector>,
                                          exclude: Option<seq<string>>, d: Dispatch)
    ensures SerializeIterable(o, xs + ys, exclude, d) ==
            Then(SerializeIterable(o, xs, exclude, d), SerializeIterable(o, ys, exclude, d))
  {
    if ys == [] {
      assert xs + ys == xs;
      var a := SerializeIterable(o, xs, exclude, d);
      if a.Ok? {
        assert a.value + map[] == a.value;
      }
    } else {
      var init, last := ys[..|ys| - 1], ys[|ys| - 1];
      assert ys == init + [last];
      assert xs + ys == (xs + init) + [last];
      IterableConcat(o, xs, init, exclude, d);
      IterableSnoc(o, xs + init, last, exclude, d);
      IterableSnoc(o, init, last, exclude, d);
      if !Keys.Excluded(last.key, exclude) {
        ThenAssoc(SerializeIterable(o, xs, exclude, d), SerializeIterable(o, init, exclude, d),
                  SelectorEntries(o, last.key, Keys.UnpackArgs(last).1, d));
      }
    }
  }

  /**
   * An `include` entry that is not `empty` is in the result with its value,
   * whatever the base selection wrote under the same key; an `empty` one
   * removes the key.
   */
  lemma IncludeWins(o: Object, only: Selectors, exclude: Option<seq<string>>, includes: Selectors, d: Dispatch, k: string)
    requires Truthy(includes)
    requires SerializeIterable(o, includes.list, None, d).Ok?
    requires k in SerializeIterable(o, includes.list, None, d).value
    requires Serialize(o, only, exclude, includes, d).Ok?
    ensures var m := SerializeIterable(o, includes.list, None, d).value;
            var r := Serialize(o, only, exclude, includes, d).value;
            (k in r <==> m[k] != Missing) && (k in r ==> r[k] == m[k])
  {
  }

  /**
   * The key of an attribute set writes the set's members, read with their
   * own arguments: the arguments given with the set's key make no
   * difference.
   */
  lemma SetIgnoresOuterArgs(o: Object, key: string, a1: Args, a2: Args, d: Dispatch)
    requires SetMembers(o.attrSets, key).Some?
    ensures SelectorEntries(o, key, a1, d) == SelectorEntries(o, key, a2, d)
    ensures SelectorEntries(o, key, a1, d) == ExpandSet(o, SetMembers(o.attrSets, key).value, d)
  {
  }

  /** A member is read as an attribute even when its key names another set: sets do not nest. */
  lemma MemberNotExpanded(o: Object, members: seq<Selector>, m: Selector, d: Dispatch)
    requires SetMembers(o.attrSets, m.key).Some?
    ensures ExpandSet(o, members + [m], d) == Then(ExpandSet(o, members, d), AttributeEntry(o, m.key, Keys.UnpackArgs(m).1, d))
  {
    assert (members + [m])[..|members|] == members;
  }

  /** `"src as alias"` reads attribute `src` with the selector's arguments and writes it under `alias`. */
  lemma AliasedSelector(o: Object, sels: seq<Selector>, src: string, alias: string, args: Args,
                        exclude: Option<seq<string>>, d: Dispatch)
    requires !Keys.HasSep(src) && !Keys.HasSep(alias)
    requires !(|src| >= 3 && src[|src| - 3..] == " as")
    requires SetMembers(o.attrSets, Keys.Aliased(src, alias)).None?
    requires !Keys.Excluded(Keys.Aliased(src, alias), exclude)
    ensures var v := SerializeAttribute(o, src, args, d);
            SerializeIterable(o, sels + [Pair(Keys.Aliased(src, alias), args)], exclude, d) ==
              Then(SerializeIterable(o, sels, exclude, d), if v.Ok? then Ok(map[alias := v.value]) else Err(v.error))
  {
    var key := Keys.Aliased(src, alias);
    Keys.UnpackAliased(src, alias);
    IterableSnoc(o, sels, Pair(key, args), exclude, d);
    assert SelectorEntries(o, key, args, d) == AttributeEntry(o, key, args, d);
  }

  /**
   * A plain key whose attribute is present writes, under that key, the
   * attribute's own value dumped with the selector's arguments.
   */
  lemma FieldWritten(o: Object, sels: seq<Selector>, s: Selector, exclude: Option<seq<string>>, d: Dispatch)
    requires !Keys.HasSep(s.key) && SetMembers(o.attrSets, s.key).None? && !Keys.Excluded(s.key, exclude)
    requires GetAttr(o.fields, s.key).Some?
    requires SerializeIterable(o, sels + [s], exclude, d).Ok?
    ensures var x := Dumps(GetAttr(o.fields, s.key).value, Keys.UnpackArgs(s).1, d);
            x.Ok? && SerializeIterable(o, sels + [s], exclude, d).value[s.key] == x.value
  {
    IterableSnoc(o, sels, s, exclude, d);
    assert Keys.UnpackKey(s.key) == Ok((s.key, s.key));
  }

  /** An excluded raw key is skipped, so an aliased key is not excluded by its attribute's name. */
  lemma ExcludedSkipped(o: Object, sels: seq<Selector>, s: Selector, exclude: Option<seq<string>>, d: Dispatch)
    requires Keys.Excluded(s.key, exclude)
    ensures SerializeIterable(o, sels + [s], exclude, d) == SerializeIterable(o, sels, exclude, d)
    ensures forall src, alias :: !Keys.Excluded(Keys.Aliased(src, alias), Some([src]))
  {
    assert (sels + [s])[..|sels|] == sels;
    forall src, alias ensures !Keys.Excluded(Keys.Aliased(src, alias), Some([src])) {
      assert |Keys.Aliased(src, alias)| > |src|;
    }
  }

  // ---------------------------------------------------------------------
  // Values no handler touches
  // ---------------------------------------------------------------------

  /** No registry key matches `v`, or no branch of json_alchemy's chain does. */
  predicate Untouched(d: Dispatch, v: Value)
  {
    match d
    case Registry(es) => forall e :: e in es ==> !Matches(e.key, v)
    case ElifChain =>
      !IsInstance(v, JsonMixin) && !IsInstance(v, "list") && !IsInstance(v, "datetime")
      && !IsInstance(v, "date") && !IsInstance(v, "Enum")
  }

  lemma {:induction false} FoldUnmatched(orig: Value, args: Args, d: Dispatch, i: nat, cur: Value)
    requires d.Registry? && i <= |d.entries| && Size(cur) <= Size(orig)
    requires forall j :: i <= j < |d.entries| ==> !Matches(d.entries[j].key, cur)
    ensures ApplyDumpers(orig, args, d, i, cur) == Ok(cur)
    decreases |d.entries| - i
  {
    if i < |d.entries| {
      FoldUnmatched(orig, args, d, i + 1, cur);
    }
  }

  /** A value no handler matches and that is not called comes out of `dumps` unchanged. */
  lemma PassThrough(v: Value, args: Args, d: Dispatch)
    requires !IsCallable(v) && Untouched(d, v)
    ensures Dumps(v, args, d) == Ok(v)
  {
    Unfold(v, args, d);
    if d.Registry? {
      FoldUnmatched(v, args, d, 0, v);
    }
  }

  /**
   * A missing attribute written last makes its key absent from the result,
   * whatever was written under it before; an attribute holding None stays
   * None.
   */
  lemma LastAttributeWrite(o: Object, sels: seq<Selector>, name: string, exclude: Option<seq<string>>, d: Dispatch)
    requires !Keys.HasSep(name) && SetMembers(o.attrSets, name).None?
    requires Untouched(d, Missing) && Untouched(d, Null)
    requires Serialize(o, Given(sels + [Bare(name)]), exclude, Unset, d).Ok?
    ensures var r := Serialize(o, Given(sels + [Bare(name)]), exclude, Unset, d).value;
            (GetAttr(o.fields, name).None? ==> name !in r)
            && (GetAttr(o.fields, name) == Some(Null) ==> name in r && r[name] == Null)
  {
    var v := AttributeValue(o, name);
    IterableSnoc(o, sels, Bare(name), exclude, d);
    IterableSnoc(o, sels, Bare(name), None, d);
    assert Keys.UnpackKey(name) == Ok((name, name));
    if v == Missing || v == Null {
      PassThrough(v, NoArgs, d);
      assert SerializeAttribute(o, name, NoArgs, d) == Ok(v);
      assert SelectorEntries(o, name, NoArgs, d) == Ok(map[name := v]);
    }
  }

  // ---------------------------------------------------------------------
  // The built-in registries, in any order
  // ---------------------------------------------------------------------

  /** A registry holding exactly the given built-in entries, in some order, each key once. */
  predicate BuiltIn(d: Dispatch, base: seq<Entry>)
  {
    d.Registry? && UniqueKeys(d.entries)
    && (forall e :: e in d.entries ==> e in base) && (forall e :: e in base ==> e in d.entries)
  }

  lemma {:induction false} FoldOneMatch(orig: Value, args: Args, d: Dispatch, i: nat, j: nat)
    requires d.Registry? && i <= j < |d.entries|
    requires Matches(d.entries[j].key, orig)
    requires forall k :: 0 <= k < |d.entries| && k != j ==> !Matches(d.entries[k].key, orig)
    requires var w := Apply(d.entries[j].handler, orig, args, d);
             w.Ok? ==> forall k :: j < k < |d.entries| ==> !Matches(d.entries[k].key, w.value)
    ensures ApplyDumpers(orig, args, d, i, orig) == Apply(d.entries[j].handler, orig, args, d)
    decreases |d.entries| - i
  {
    if i < j {
      FoldOneMatch(orig, args, d, i + 1, j);
    } else {
      var w := Apply(d.entries[j].handler, orig, args, d);
      if w.Ok? {
        FoldUnmatched(orig, args, d, j + 1, w.value);
      }
    }
  }

  /**
   * When exactly one key matches a value and no later key matches what its
   * handler returns, `dumps` is that handler.
   */
  lemma Dispatched(v: Value, args: Args, d: Dispatch, j: nat)
    requires d.Registry? && j < |d.entries| && !IsCallable(v)
    requires Matches(d.entries[j].key, v)
    requires forall k :: 0 <= k < |d.entries| && k != j ==> !Matches(d.entries[k].key, v)
    requires var w := Apply(d.entries[j].handler, v, args, d);
             w.Ok? ==> forall k :: 0 <= k < |d.entries| && k != j ==> !Matches(d.entries[k].key, w.value)
    ensures Dumps(v, args, d) == Apply(d.entries[j].handler, v, args, d)
  {
    FoldOneMatch(v, args, d, 0, j);
  }

  /** The position of a built-in entry in a registry holding the built-ins in some order. */
  lemma FindEntry(d: Dispatch, base: seq<Entry>, e: Entry) returns (j: nat)
    requires BuiltIn(d, base) && e in base
    ensures j < |d.entries| && d.entries[j] == e
    ensures forall k :: 0 <= k < |d.entries| && k != j ==> d.entries[k] in base && d.entries[k].key != e.key
  {
    assert e in d.entries;
    j :| 0 <= j < |d.entries| && d.entries[j] == e;
    forall k | 0 <= k < |d.entries| && k != j
      ensures d.entries[k] in base && d.entries[k].key != e.key
    {
      assert d.entries[k] in d.entries;
      if k < j {} else {}
    }
  }

  /** serializer: a datetime becomes `YYYY-MM-DDTHH:MM:SSZ` through strftime, which refuses years before 1900. */
  lemma SerializerDateTime(dt: Dates.DateTime, args: Args, d: Dispatch)
    requires BuiltIn(d, SerializerDumpers)
    ensures Dumps(DateTime(dt), args, d) ==
            if dt.date.year < 1900 then Err(StrftimeYearError(dt.date.year)) else Ok(Str(Dates.StrftimeZ(dt)))
  {
    var j := FindEntry(d, SerializerDumpers, Entry(NameKey("datetime"), StrftimeHandler));
    Dispatched(DateTime(dt), args, d, j);
  }

  /** bourne: a datetime becomes `isoformat() + 'Z'`, which reads back as the same datetime. */
  lemma BourneDateTime(dt: Dates.DateTime, args: Args, d: Dispatch)
    requires BuiltIn(d, BourneDumpers)
    ensures Dumps(DateTime(dt), args, d) == Ok(Str(Dates.IsoDateTimeZ(dt)))
    ensures Dates.ParseDateTimeZ(Dumps(DateTime(dt), args, d).value.s) == Some(dt)
  {
    Dates.DateTimeZRoundTrip(dt);
    BourneDateTimeForm(dt, args, d);
  }

  lemma BourneDateTimeForm(dt: Dates.DateTime, args: Args, d: Dispatch)
    requires BuiltIn(d, BourneDumpers)
    ensures Dumps(DateTime(dt), args, d) == Ok(Str(Dates.IsoDateTimeZ(dt)))
  {
    var j := FindEntry(d, BourneDumpers, Entry(NameKey("datetime"), IsoZHandler));
    Dispatched(DateTime(dt), args, d, j);
  }

  /** serializer and bourne: a date becomes its full-date form, which reads back as the same date. */
  lemma RegistryDate(date: Dates.Date, args: Args, d: Dispatch)
    requires BuiltIn(d, SerializerDumpers) || BuiltIn(d, BourneDumpers)
    ensures Dumps(Date(date), args, d) == Ok(Str(Dates.FormatDate(date)))
    ensures Dates.ParseDate(Dumps(Date(date), args, d).value.s) == Some(date)
  {
    Dates.DateRoundTrip(date);
    RegistryDateForm(date, args, d);
  }

  lemma RegistryDateForm(date: Dates.Date, args: Args, d: Dispatch)
    requires BuiltIn(d, SerializerDumpers) || BuiltIn(d, BourneDumpers)
    ensures Dumps(Date(date), args, d) == Ok(Str(Dates.FormatDate(date)))
  {
    var base := if BuiltIn(d, SerializerDumpers) then SerializerDumpers else BourneDumpers;
    var j := FindEntry(d, base, Entry(NameKey("date"), IsoDateHandler));
    Dispatched(Date(date), args, d, j);
  }

  /** serializer: a list, or an instance of any subclass of list, becomes the list of its dumped elements. */
  lemma SerializerList(xs: seq<Value>, cls: string, args: Args, d: Dispatch)
    requires BuiltIn(d, SerializerDumpers)
    requires cls !in {"Serializable", "datetime", "date"}
    ensures Dumps(List(xs, cls), args, d) ==
            var ys := DumpList(xs, args, d); if ys.Ok? then Ok(List(ys.value, "list")) else Err(ys.error)
  {
    var j := FindEntry(d, SerializerDumpers, Entry(TypeKey("list"), ListHandler));
    Dispatched(List(xs, cls), args, d, j);
  }

  /**
   * bourne: the list handler is keyed by the name `list`, so exactly the
   * instances of `list` itself are mapped; a subclass instance is left as it is.
   */
  lemma BourneList(xs: seq<Value>, cls: string, args: Args, d: Dispatch)
    requires BuiltIn(d, BourneDumpers)
    requires cls !in {"BourneMixin", "datetime", "date"}
    ensures Dumps(List(xs, cls), args, d) ==
            if cls == "list" then
              var ys := DumpList(xs, args, d); if ys.Ok? then Ok(List(ys.value, "list")) else Err(ys.error)
            else Ok(List(xs, cls))
  {
    if cls == "list" {
      var j := FindEntry(d, BourneDumpers, Entry(NameKey("list"), ListHandler));
      Dispatched(List(xs, cls), args, d, j);
    } else {
      forall e | e in d.entries ensures !Matches(e.key, List(xs, cls)) {
        assert e in BourneDumpers;
      }
      PassThrough(List(xs, cls), args, d);
    }
  }

  /**
   * serializer and bourne: an instance of the variant's mixin becomes the
   * dictionary of its nested selection, made with only the `only`,
   * `include` and `exclude` entries of the arguments.
   */
  lemma RegistryNested(o: Object, args: Args, d: Dispatch)
    requires BuiltIn(d, SerializerDumpers) || BuiltIn(d, BourneDumpers)
    requires IsInstance(Obj(o), if BuiltIn(d, SerializerDumpers) then "Serializable" else "BourneMixin")
    requires o.cls !in {"datetime", "date", "list"} && "list" !in o.bases
    ensures var c := Keys.CopyArgs(args);
            var m := Serialize(o, c.only, c.exclude, c.includes, d);
            Dumps(Obj(o), args, d) == if m.Ok? then Ok(Dict(m.value)) else Err(m.error)
  {
    if BuiltIn(d, SerializerDumpers) {
      var j := FindEntry(d, SerializerDumpers, Entry(TypeKey("Serializable"), NestedHandler));
      NestedMisses(o, args, d, SerializerDumpers, j);
      Dispatched(Obj(o), args, d, j);
    } else {
      var j := FindEntry(d, BourneDumpers, Entry(TypeKey("BourneMixin"), NestedHandler));
      NestedMisses(o, args, d, BourneDumpers, j);
      Dispatched(Obj(o), args, d, j);
    }
  }

  /** Besides the mixin's entry, no built-in key matches a nested object or the dictionary it becomes. */
  lemma NestedMisses(o: Object, args: Args, d: Dispatch, base: seq<Entry>, j: nat)
    requires base == SerializerDumpers || base == BourneDumpers
    requires d.Registry? && j < |d.entries|
    requires forall k :: 0 <= k < |d.entries| && k != j ==> d.entries[k] in base && d.entries[k].key != base[0].key
    requires o.cls !in {"datetime", "date", "list"} && "list" !in o.bases
    ensures forall k :: 0 <= k < |d.entries| && k != j ==> !Matches(d.entries[k].key, Obj(o))
    ensures var w := Apply(NestedHandler, Obj(o), args, d);
            w.Ok? ==> forall k :: 0 <= k < |d.entries| && k != j ==> !Matches(d.entries[k].key, w.value)
  {
    var w := Apply(NestedHandler, Obj(o), args, d);
    assert w.Ok? ==> w.value.Dict?;
  }

  /** The dispatches the three variants start with. */
  predicate Initial(d: Dispatch)
  {
    BuiltIn(d, SerializerDumpers) || BuiltIn(d, BourneDumpers) || d.ElifChain?
  }

  /** Scalars, dictionaries and the `empty` sentinel pass every initial dispatch unchanged. */
  lemma ScalarsUntouched(v: Value, d: Dispatch)
    requires v.Missing? || v.Null? || v.Bool? || v.Int? || v.Str? || v.Dict?
    requires Initial(d)
    ensures Untouched(d, v)
  {
    if d.Registry? {
      forall e | e in d.entries ensures !Matches(e.key, v) {
        assert e in SerializerDumpers || e in BourneDumpers;
      }
    }
  }

  /**
   * A function or bound method is called once, with no arguments; when it
   * returns another function, that one is not called.
   */
  lemma CalledOnce(v: Value, args: Args, d: Dispatch)
    requires IsCallable(v) && IsCallable(v.results.noArgs)
    requires Initial(d)
    ensures Dumps(v, args, d) == Ok(v.results.noArgs)
  {
    var w := v.results.noArgs;
    Unfold(v, args, d);
    Unfold(w, args, d);
    if d.Registry? {
      forall e | e in d.entries ensures !Matches(e.key, w) {
        assert e in SerializerDumpers || e in BourneDumpers;
      }
      FoldUnmatched(w, args, d, 0, w);
    }
  }

  // ---------------------------------------------------------------------
  // json_alchemy's chain
  // ---------------------------------------------------------------------

  /** A datetime gets the `...Z` form, never the date-only form, and it reads back as the datetime. */
  lemma ChainDateTime(dt: Dates.DateTime, args: Args)
    ensures Dumps(DateTime(dt), args, ElifChain) == Ok(Str(Dates.IsoDateTimeZ(dt)))
    ensures Dates.ParseDateTimeZ(Dumps(DateTime(dt), args, ElifChain).value.s) == Some(dt)
    ensures Dates.ParseDate(Dumps(DateTime(dt), args, ElifChain).value.s).None?
  {
    Dates.DateTimeZRoundTrip(dt);
    Dates.DateTimeIsNotDate(dt);
    ChainDateTimeForm(dt, args);
  }

  lemma ChainDateTimeForm(dt: Dates.DateTime, args: Args)
    ensures Dumps(DateTime(dt), args, ElifChain) == Ok(Str(Dates.IsoDateTimeZ(dt)))
  {
    Unfold(DateTime(dt), args, ElifChain);
  }

  lemma ChainDate(date: Dates.Date, args: Args)
    ensures Dumps(Date(date), args, ElifChain) == Ok(Str(Dates.FormatDate(date)))
    ensures Dates.ParseDate(Dumps(Date(date), args, ElifChain).value.s) == Some(date)
  {
    Unfold(Date(date), args, ElifChain);
    Dates.DateRoundTrip(date);
  }

  /** An instance of SQLAlchemy's Enum type, or of a class derived from it, becomes None. */
  lemma ChainEnum(v: Value, args: Args)
    requires !IsCallable(v) && IsInstance(v, "Enum")
    requires !IsInstance(v, JsonMixin) && !IsInstance(v, "list") && !IsInstance(v, "datetime") && !IsInstance(v, "date")
    ensures Dumps(v, args, ElifChain) == Ok(Null)
  {
    Unfold(v, args, ElifChain);
  }

  /** A nested JSONMixin becomes the dictionary of `jsonify_model` with the copied arguments. */
  lemma ChainNested(o: Object, args: Args)
    requires JsonMixin in o.bases || o.cls == JsonMixin
    ensures var c := Keys.CopyArgs(args);
            var m := Serialize(o, c.only, c.exclude, c.includes, ElifChain);
            Dumps(Obj(o), args, ElifChain) == if m.Ok? then Ok(Dict(m.value)) else Err(m.error)
  {
    Unfold(Obj(o), args, ElifChain);
  }

  /**
   * A list becomes a new list of the same length whose element `i` is the
   * dumped element `i`; `empty` elements stay in place.
   */
  lemma ChainList(xs: seq<Value>, cls: string, args: Args)
    requires cls != JsonMixin
    requires Dumps(List(xs, cls), args, ElifChain).Ok?
    ensures var r := Dumps(List(xs, cls), args, ElifChain).value;
            r.List? && r.cls == "list" && |r.items| == |xs|
            && (forall i :: 0 <= i < |xs| ==> Dumps(xs[i], args, ElifChain) == Ok(r.items[i]))
            && (forall i :: 0 <= i < |xs| && xs[i] == Missing ==> r.items[i] == Missing)
  {
    Unfold(List(xs, cls), args, ElifChain);
    var r := Dumps(List(xs, cls), args, ElifChain).value;
    DumpListElementwise(xs, args, ElifChain, r.items);
    forall i | 0 <= i < |xs| && xs[i] == Missing ensures r.items[i] == Missing {
      PassThrough(Missing, args, ElifChain);
    }
  }

  // ---------------------------------------------------------------------
  // Lists and normal forms
  // ---------------------------------------------------------------------

  /** `DumpList` succeeds with `ys` exactly when every element dumps to the element of `ys` at its position. */
  lemma {:induction false} DumpListElementwise(xs: seq<Value>, args: Args, d: Dispatch, ys: seq<Value>)
    ensures DumpList(xs, args, d) == Ok(ys) <==>
            |ys| == |xs| && forall i :: 0 <= i < |xs| ==> Dumps(xs[i], args, d) == Ok(ys[i])
  {
    if xs != [] {
      if |ys| == |xs| {
        DumpListElementwise(xs[1..], args, d, ys[1..]);
        assert ys == [ys[0]] + ys[1..];
        if forall i :: 0 <= i < |xs| ==> Dumps(xs[i], args, d) == Ok(ys[i]) {
          assert forall i :: 0 <= i < |xs| - 1 ==> xs[1..][i] == xs[i + 1] && ys[1..][i] == ys[i + 1];
        }
        if DumpList(xs, args, d) == Ok(ys) {
          forall i | 0 <= i < |xs| ensures Dumps(xs[i], args, d) == Ok(ys[i]) {
            if i > 0 {
              assert xs[1..][i - 1] == xs[i] && ys[1..][i - 1] == ys[i];
            }
          }
        }
      }
    }
  }

  /** What normalisation produces: scalars, dictionaries, `empty`, and plain lists of such values. */
  predicate NormalForm(v: Value)
  {
    match v
    case Missing => true
    case Null => true
    case Bool(_) => true
    case Int(_) => true
    case Str(_) => true
    case Dict(_) => true
    case List(ys, c) => c == "list" && forall i :: 0 <= i < |ys| ==> NormalForm(ys[i])
    case _ => false
  }

  /** A plain list whose elements each dump to themselves dumps to itself, in every initial dispatch. */
  lemma NormalListFixed(v: Value, args: Args, d: Dispatch)
    requires v.List? && v.cls == "list" && Initial(d)
    requires DumpList(v.items, args, d) == Ok(v.items)
    ensures Dumps(v, args, d) == Ok(v)
  {
    if d.Registry? {
      var base := if BuiltIn(d, SerializerDumpers) then SerializerDumpers else BourneDumpers;
      var e := if BuiltIn(d, SerializerDumpers) then Entry(TypeKey("list"), ListHandler)
               else Entry(NameKey("list"), ListHandler);
      var j := FindEntry(d, base, e);
      assert Apply(ListHandler, v, args, d) == Ok(v);
      forall k | 0 <= k < |d.entries| && k != j ensures !Matches(d.entries[k].key, v) {
        assert d.entries[k] in base;
      }
      Dispatched(v, args, d, j);
    } else {
      Unfold(v, args, d);
    }
  }

  /** Normalising a value already in normal form changes nothing, in every initial dispatch. */
  lemma {:induction false} NormalFormFixed(v: Value, args: Args, d: Dispatch)
    requires NormalForm(v) && Initial(d)
    ensures Dumps(v, args, d) == Ok(v)
    decreases Size(v)
  {
    if v.List? {
      forall i | 0 <= i < |v.items| ensures Dumps(v.items[i], args, d) == Ok(v.items[i]) {
        ElementSmaller(v.items, i);
        NormalFormFixed(v.items[i], args, d);
      }
      DumpListElementwise(v.items, args, d, v.items);
      NormalListFixed(v, args, d);
    } else {
      ScalarsUntouched(v, d);
      PassThrough(v, args, d);
    }
  }
}
