/**
 * Properties of the sqlalchemy_serializers variant: the call shapes of
 * `func_args`, the `default` fallback, `attr`, the absence of aliasing, and
 * the selection rules it shares with the other variants.
 */
module AlchemyProps {

  import opened Wrappers
  import opened Values
  import opened Alchemy
  import Dates
  import Keys
  import EngineProps

  /**
   * A function or bound method is called with no arguments when `func_args`
   * is absent, an empty list or an empty dictionary; with positional
   * arguments for a non-empty list, keyword arguments for a non-empty
   * dictionary, and as one argument otherwise.
   */
  lemma CallShapes(v: Value, args: Args)
    requires IsCallable(v)
    ensures args.funcArgs.None? ==> DumpCallable(v, args) == v.results.noArgs
    ensures args.funcArgs == Some(Positional([])) ==> DumpCallable(v, args) == v.results.noArgs
    ensures args.funcArgs == Some(Keyword(map[])) ==> DumpCallable(v, args) == v.results.noArgs
    ensures args.funcArgs.Some? && args.funcArgs.value.Positional? && args.funcArgs.value.values != [] ==>
              DumpCallable(v, args) == v.results.positional
    ensures args.funcArgs.Some? && args.funcArgs.value.Keyword? && args.funcArgs.value.kwargs != map[] ==>
              DumpCallable(v, args) == v.results.keyword
    ensures args.funcArgs.Some? && args.funcArgs.value.Single? ==> DumpCallable(v, args) == v.results.single
  {
  }

  /**
   * A None result with a `default` becomes the default dumped with the copied
   * dictionary; that second `dumps` has no default, so it is final even when
   * it is None.
   */
  lemma DefaultOnNone(v: Value, args: Args)
    requires args.default.Some?
    requires DumpNonCallable(DumpCallable(v, args), args) == Null
    ensures var c := Keys.CopyArgs(args);
            Dumps(v, args) == Dumps(args.default.value, c)
            && Dumps(args.default.value, c) == DumpNonCallable(DumpCallable(args.default.value, c), c)
  {
  }

  /** Without a `default`, or when the result is not None, `dumps` is the call followed by the chain. */
  lemma NoFallback(v: Value, args: Args)
    requires args.default.None? || DumpNonCallable(DumpCallable(v, args), args) != Null
    ensures Dumps(v, args) == DumpNonCallable(DumpCallable(v, args), args)
  {
  }

  /** `empty` is never replaced by a default: it is not None. */
  lemma MissingNeverReplaced(args: Args)
    ensures Dumps(Missing, args) == Missing
  {
  }

  /** Element `i` of a dumped list is element `i` dumped with the full dictionary. */
  lemma {:induction false} DumpListAt(xs: seq<Value>, args: Args, i: nat)
    requires i < |xs|
    ensures DumpList(xs, args)[i] == Dumps(xs[i], args)
  {
    if i > 0 {
      DumpListAt(xs[1..], args, i - 1);
    }
  }

  /**
   * A list becomes a list of the same length whose elements are dumped with
   * the full dictionary, so with a `default` every None element becomes the
   * dumped default; the list itself, not being None, is never replaced.
   */
  lemma ListDefaults(xs: seq<Value>, cls: string, args: Args)
    ensures var r := Dumps(List(xs, cls), args);
            r.List? && r.cls == "list" && |r.items| == |xs|
            && (forall i :: 0 <= i < |xs| ==> r.items[i] == Dumps(xs[i], args))
            && (args.default.Some? ==> forall i :: 0 <= i < |xs| && xs[i] == Null ==>
                  r.items[i] == Dumps(args.default.value, Keys.CopyArgs(args)))
  {
    forall i | 0 <= i < |xs| ensures DumpList(xs, args)[i] == Dumps(xs[i], args) {
      DumpListAt(xs, args, i);
    }
  }

  /** A datetime gets the `...Z` form that reads back as itself; it is never None, so never defaulted. */
  lemma DateTimeForm(dt: Dates.DateTime, args: Args)
    ensures Dumps(DateTime(dt), args) == Str(Dates.IsoDateTimeZ(dt))
    ensures Dates.ParseDateTimeZ(Dumps(DateTime(dt), args).s) == Some(dt)
  {
    Dates.DateTimeZRoundTrip(dt);
    DateTimeDumped(dt, args);
  }

  lemma DateTimeDumped(dt: Dates.DateTime, args: Args)
    ensures Dumps(DateTime(dt), args) == Str(Dates.IsoDateTimeZ(dt))
  {
  }

  /** A nested `JSONMixin` object becomes its own `jsonify_model` under the copied `only`/`include`/`exclude`. */
  lemma NestedModel(o: Object, args: Args)
    requires IsInstance(Obj(o), JsonMixin)
    ensures var c := Keys.CopyArgs(args);
            Dumps(Obj(o), args) == Dict(JsonifyModel(o, c.only, c.exclude, c.includes))
            && c.only == args.only && c.includes == args.includes && c.exclude == args.exclude
  {
  }

  /** Booleans, integers and strings pass through; None does too unless a `default` replaces it. */
  lemma ScalarsKept(v: Value, args: Args)
    requires v.Null? || v.Bool? || v.Int? || v.Str?
    ensures Dumps(v, args) ==
            if v.Null? && args.default.Some? then Dumps(args.default.value, Keys.CopyArgs(args)) else v
  {
  }

  /** The Enum type becomes None, which a `default` then replaces. */
  lemma EnumBecomesNone(args: Args)
    ensures Dumps(EnumType, args) ==
            if args.default.Some? then Dumps(args.default.value, Keys.CopyArgs(args)) else Null
  {
  }

  /** Without `attr`, the attribute named by the key is read (or `empty` when it is missing). */
  lemma AttrDefaultsToKey(o: Object, key: string, args: Args)
    requires args.attr.None?
    ensures JsonifyAttribute(o, key, args) ==
            Dumps(match GetAttr(o.fields, key) case Some(x) => x case None => Missing,
                  args.(attr := Some(AttrName(key))))
  {
  }

  /** A plain function given as `attr` is the value itself, and is then called with `func_args`. */
  lemma AttrFunctionIsCalled(o: Object, key: string, args: Args, res: CallResults)
    requires args.attr == Some(AttrFunction(res))
    ensures JsonifyAttribute(o, key, args) == Dumps(Fn(PlainFunction, res), args)
    ensures DumpCallable(Fn(PlainFunction, res), args) in {res.noArgs, res.positional, res.keyword, res.single}
  {
  }

  /**
   * An explicit `attr` naming another attribute reads that attribute, not
   * the key's: the key only names the output entry.
   */
  lemma ExplicitAttr(o: Object, key: string, n: string, args: Args)
    requires args.attr == Some(AttrName(n))
    ensures JsonifyAttribute(o, key, args) ==
            Dumps(match GetAttr(o.fields, n) case Some(x) => x case None => Missing, args)
    ensures GetAttr(o.fields, n).None? ==> JsonifyAttribute(o, key, args) == Missing
  {
  }

  /** With `likes` and `views` present, `{'attr': 'likes'}` under the key `views` dumps the `likes` field. */
  lemma ExplicitAttrExample(o: Object)
    requires o.fields == [Field("likes", Int(3)), Field("views", Int(7))]
    ensures JsonifyAttribute(o, "views", NoArgs.(attr := Some(AttrName("likes")))) == Int(3)
    ensures JsonifyAttribute(o, "views", NoArgs) == Int(7)
  {
    assert GetAttr(o.fields, "likes") == Some(Int(3));
    assert GetAttr(o.fields, "views") == Some(Int(7));
  }

  /** Running `jsonify_attribute` again with the dictionary the first run left behind gives the same value. */
  lemma SameKeyAfterMutation(o: Object, key: string, args: Args)
    ensures JsonifyAttribute(o, key, WithAttr(args, key)) == JsonifyAttribute(o, key, args)
  {
  }

  /** The key of a member of an attribute set. */
  predicate MemberKey(ms: seq<Selector>, k: string)
  {
    exists m :: m in ms && m.key == k
  }

  /** The keys `SetEntries` writes are exactly the members' own keys. */
  lemma {:induction false} SetEntriesKeys(o: Object, ms: seq<Selector>)
    ensures forall k :: k in SetEntries(o, ms) <==> MemberKey(ms, k)
  {
    if ms != [] {
      var init, last := ms[..|ms| - 1], ms[|ms| - 1];
      assert ms == init + [last];
      SetEntriesKeys(o, init);
    }
  }

  /** Selector `s` writes key `k` when it is not excluded. */
  predicate Writes(o: Object, s: Selector, exclude: Option<seq<string>>, k: string)
  {
    !Keys.Excluded(s.key, exclude)
    && match SetMembers(o.attrSets, s.key)
       case None => s.key == k
       case Some(ms) => MemberKey(ms, k)
  }

  /**
   * There is no aliasing: the keys of the result are exactly the keys of
   * the selectors that are not excluded, verbatim, with each attribute set
   * replaced by its members' keys.
   */
  lemma {:induction false} KeysVerbatim(o: Object, sels: seq<Selector>, exclude: Option<seq<string>>)
    ensures forall k :: k in JsonifyIterable(o, sels, exclude) <==> exists s :: s in sels && Writes(o, s, exclude, k)
  {
    if sels != [] {
      var init, last := sels[..|sels| - 1], sels[|sels| - 1];
      assert sels == init + [last];
      KeysVerbatim(o, init, exclude);
      if SetMembers(o.attrSets, last.key).Some? {
        SetEntriesKeys(o, SetMembers(o.attrSets, last.key).value);
      }
      forall k | k in JsonifyIterable(o, sels, exclude)
        ensures exists s :: s in sels && Writes(o, s, exclude, k)
      {
        if k !in JsonifyIterable(o, init, exclude) {
          assert Writes(o, last, exclude, k);
        }
      }
    }
  }

  /**
   * The value under a plain key is the attribute read with that selector's
   * own dictionary, whatever came before it in the list.
   */
  lemma LastValue(o: Object, sels: seq<Selector>, s: Selector, exclude: Option<seq<string>>)
    requires !Keys.Excluded(s.key, exclude) && SetMembers(o.attrSets, s.key).None?
    ensures var r := JsonifyIterable(o, sels + [s], exclude);
            s.key in r && r[s.key] == JsonifyAttribute(o, s.key, Keys.UnpackArgs(s).1)
  {
    var all := sels + [s];
    assert all[..|all| - 1] == sels && all[|all| - 1] == s;
  }

  /** One more selector at the end of the list of `jsonify_iterable`. */
  lemma IterableSnoc(o: Object, init: seq<Selector>, last: Selector, exclude: Option<seq<string>>)
    ensures JsonifyIterable(o, init + [last], exclude) ==
            var before := JsonifyIterable(o, init, exclude);
            if Keys.Excluded(last.key, exclude) then before
            else match SetMembers(o.attrSets, last.key)
                 case Some(ms) => before + SetEntries(o, ms)
                 case None => before[last.key := JsonifyAttribute(o, last.key, Keys.UnpackArgs(last).1)]
  {
    var sels := init + [last];
    assert sels[..|sels| - 1] == init && sels[|sels| - 1] == last;
  }

  /** Skipping excluded selectors is the same as walking the list they leave. */
  lemma {:induction false} ExcludeIsFilter(o: Object, sels: seq<Selector>, exclude: Option<seq<string>>)
    ensures JsonifyIterable(o, sels, exclude) == JsonifyIterable(o, EngineProps.Kept(sels, exclude), None)
  {
    if sels != [] {
      var init, last := sels[..|sels| - 1], sels[|sels| - 1];
      assert sels == init + [last];
      ExcludeIsFilter(o, init, exclude);
      IterableSnoc(o, init, last, exclude);
      var kept := EngineProps.Kept(init, exclude);
      if Keys.Excluded(last.key, exclude) {
        assert EngineProps.Kept(sels, exclude) == kept + [];
        assert kept + [] == kept;
      } else {
        IterableSnoc(o, kept, last, None);
      }
    }
  }

  /**
   * The selection of `jsonify_model`: the truthy `only`, where `exclude`
   * plays no part, or `attributes()` less the excluded raw keys; then
   * `include`, never filtered, written over it; then `cleanup`.
   */
  lemma Selection(o: Object, only: Selectors, exclude: Option<seq<string>>, includes: Selectors)
    ensures JsonifyModel(o, only, exclude, includes) ==
            var base := if Truthy(only) then JsonifyIterable(o, only.list, None)
                        else JsonifyIterable(o, EngineProps.Kept(o.attributes, exclude), None);
            var extra := if Truthy(includes) then JsonifyIterable(o, includes.list, None) else map[];
            Keys.Cleanup(base + extra)
  {
    ExcludeIsFilter(o, o.attributes, exclude);
  }

  /** A `None` attribute selected with `default: None` stays None (tests/json_test.py). */
  lemma NoneAsDefault(o: Object)
    requires o.fields == [Field("name", Null)] && o.attrSets == []
    ensures JsonifyModel(o, Given([Pair("name", NoArgs.(default := Some(Null)))]), None, Unset) == map["name" := Null]
  {
    var sel := Pair("name", NoArgs.(default := Some(Null)));
    assert [sel][..0] == [];
    var a := NoArgs.(default := Some(Null));
    assert Keys.UnpackArgs(sel).1 == a;
    assert AttrValue(o, WithAttr(a, "name").attr.value) == Null;
    assert Dumps(Null, Keys.CopyArgs(WithAttr(a, "name"))) == Null;
    assert JsonifyAttribute(o, "name", a) == Null;
    assert SetMembers(o.attrSets, "name").None?;
    assert JsonifyIterable(o, [sel][..0], None) == map[];
    var m := JsonifyIterable(o, [sel], None);
    assert m == map["name" := Null];
    assert m + map[] == m;
  }

  /** A missing attribute's key is absent from the result of `jsonify_model`. */
  lemma MissingKeyAbsent(o: Object, sels: seq<Selector>, name: string, exclude: Option<seq<string>>)
    requires SetMembers(o.attrSets, name).None? && GetAttr(o.fields, name).None?
    ensures name !in JsonifyModel(o, Given(sels + [Bare(name)]), exclude, Unset)
  {
    LastValue(o, sels, Bare(name), None);
    assert AttrValue(o, WithAttr(NoArgs, name).attr.value) == Missing;
    MissingNeverReplaced(WithAttr(NoArgs, name));
    var r := JsonifyIterable(o, sels + [Bare(name)], None);
    assert r + map[] == r;
  }
}
