/**
 * The imperative side of the serializer, bourne and json_alchemy variants:
 * the mutable `OBJECT_DUMPERS` registry with `register_dumper` and the
 * `dump_object` loop, and the loops that fill the result dictionaries of
 * `serialize_iterable` and `serialize` and the list of json_alchemy's list
 * branch.  Each method is proved equal to the function of the engine that
 * specifies it.
 */
module EngineState {

  import opened Wrappers
  import opened Values
  import opened Engine
  import opened EngineProps
  import Keys

  /** The handler of a key, as the dictionary lookup `OBJECT_DUMPERS[key]` finds it. */
  function Lookup(es: seq<Entry>, key: DumperKey): (r: Option<Handler>)
    ensures r.Some? <==> exists i :: 0 <= i < |es| && es[i].key == key
  {
    if es == [] then None
    else if es[0].key == key then Some(es[0].handler)
    else
      assert forall i :: 1 <= i < |es| ==> es[i] == es[1..][i - 1];
      Lookup(es[1..], key)
  }

  /** The position of a key that occurs in the registry. */
  function IndexOf(es: seq<Entry>, key: DumperKey): (i: nat)
    requires Lookup(es, key).Some?
    ensures i < |es| && es[i].key == key
  {
    if es[0].key == key then 0
    else
      assert forall i :: 1 <= i < |es| ==> es[i] == es[1..][i - 1];
      1 + IndexOf(es[1..], key)
  }

  /**
   * `OBJECT_DUMPERS[key] = h`: an existing key keeps its place and gets the
   * new handler; a new key is added after the others.
   */
  function Registered(es: seq<Entry>, key: DumperKey, h: Handler): (r: seq<Entry>)
    ensures Entry(key, h) in r
    ensures |r| == if Lookup(es, key).Some? then |es| else |es| + 1
  {
    if Lookup(es, key).Some? then
      var i := IndexOf(es, key);
      var r := es[i := Entry(key, h)];
      assert r[i] == Entry(key, h);
      r
    else es + [Entry(key, h)]
  }

  lemma {:induction false} LookupUnique(es: seq<Entry>, i: nat)
    requires UniqueKeys(es) && i < |es|
    ensures Lookup(es, es[i].key) == Some(es[i].handler)
  {
    if i > 0 {
      assert es[0].key != es[i].key;
      assert es[1..][i - 1] == es[i];
      LookupUnique(es[1..], i - 1);
    }
  }

  /**
   * Registering sets exactly one entry: afterwards `key` maps to the new
   * handler, every other key keeps its handler and its place, and no key
   * occurs twice.
   */
  lemma RegisteredSetsOneEntry(es: seq<Entry>, key: DumperKey, h: Handler)
    requires UniqueKeys(es)
    ensures var r := Registered(es, key, h);
            UniqueKeys(r)
            && Lookup(r, key) == Some(h)
            && (forall k :: k != key ==> Lookup(r, k) == Lookup(es, k))
            && (forall i :: 0 <= i < |es| && es[i].key != key ==> r[i] == es[i])
            && |r| == if Lookup(es, key).Some? then |es| else |es| + 1
  {
    var r := Registered(es, key, h);
    var n := RegisteredAt(es, key, h);
    forall i, j | 0 <= i < j < |r| ensures r[i].key != r[j].key {
      if i != n && j != n {
        assert r[i] == es[i] && r[j] == es[j];
      } else if i == n {
        assert r[j] == es[j];
      } else {
        assert r[i] == es[i];
      }
    }
    LookupUnique(r, n);
    forall k | k != key ensures Lookup(r, k) == Lookup(es, k) {
      if Lookup(es, k).Some? {
        var i := IndexOf(es, k);
        LookupUnique(es, i);
        assert r[i] == es[i];
        LookupUnique(r, i);
      } else {
        forall i | 0 <= i < |r| ensures r[i].key != k {
          if i != n {
            assert r[i] == es[i];
          }
        }
      }
    }
  }

  /** Where registering puts the new entry: at the key's old place, or at the end; every other place is unchanged. */
  lemma RegisteredAt(es: seq<Entry>, key: DumperKey, h: Handler) returns (n: nat)
    ensures var r := Registered(es, key, h);
            n < |r| && r[n] == Entry(key, h)
            && |r| == (if n < |es| then |es| else |es| + 1)
            && (n < |es| <==> Lookup(es, key).Some?)
            && (n < |es| ==> es[n].key == key)
            && (n == |es| ==> forall i :: 0 <= i < |es| ==> es[i].key != key)
            && (forall i :: 0 <= i < |r| && i != n ==> i < |es| && r[i] == es[i])
  {
    var r := Registered(es, key, h);
    if Lookup(es, key).Some? {
      n := IndexOf(es, key);
    } else {
      n := |es|;
    }
  }

  /** The `OBJECT_DUMPERS` dictionary of a variant that keeps one. */
  class ObjectDumpers {

    var entries: seq<Entry>

    ghost predicate Valid()
      reads this
    {
      UniqueKeys(entries)
    }

    /** serializer's initial registry. */
    constructor ForSerializer()
      ensures entries == SerializerDumpers && Valid()
    {
      entries := SerializerDumpers;
    }

    /** bourne's initial registry. */
    constructor ForBourne()
      ensures entries == BourneDumpers && Valid()
    {
      entries := BourneDumpers;
    }

    /** `register_dumper(key, dumper_callable)` for a dumper returning a constant. */
    method Register(key: DumperKey, c: Scalar)
      requires Valid()
      modifies this
      ensures Valid()
      ensures entries == Registered(old(entries), key, ConstHandler(c))
    {
      RegisteredSetsOneEntry(entries, key, ConstHandler(c));
      entries := Registered(entries, key, ConstHandler(c));
    }

    /** `dump_object`: the loop over the registry, reassigning the value a matching handler returns. */
    method DumpObject(v: Value, args: Args) returns (r: Result<Value, Error>)
      ensures r == Engine.DumpObject(v, args, Registry(entries))
    {
      var d := Registry(entries);
      var value := v;
      var i := 0;
      while i < |entries|
        invariant 0 <= i <= |entries|
        invariant Size(value) <= Size(v)
        invariant ApplyDumpers(v, args, d, 0, v) == ApplyDumpers(v, args, d, i, value)
      {
        if Matches(entries[i].key, value) {
          var next := Apply(entries[i].handler, value, args, d);
          if next.Err? {
            return next;
          }
          value := next.value;
        }
        i := i + 1;
      }
      return Ok(value);
    }
  }

  /** The handlers see each other's results: a key is matched against what the earlier handlers left. */
  lemma HandlersChain(o: Object)
    requires o.cls == "Point" && o.bases == {}
    ensures var first := [Entry(NameKey("Point"), ConstHandler(SStr("p"))), Entry(NameKey("str"), ConstHandler(SInt(1)))];
            var second := [first[1], first[0]];
            Dumps(Obj(o), NoArgs, Registry(first)) == Ok(Int(1))
            && Dumps(Obj(o), NoArgs, Registry(second)) == Ok(Str("p"))
  {
    var first := [Entry(NameKey("Point"), ConstHandler(SStr("p"))), Entry(NameKey("str"), ConstHandler(SInt(1)))];
    var second := [first[1], first[0]];
    Unfold(Obj(o), NoArgs, Registry(first));
    Unfold(Obj(o), NoArgs, Registry(second));
    assert ApplyDumpers(Obj(o), NoArgs, Registry(first), 1, Str("p")) == Ok(Int(1));
    assert ApplyDumpers(Obj(o), NoArgs, Registry(second), 1, Obj(o)) == Ok(Str("p"));
  }

  /**
   * A dumper registered under a key the built-ins do not use gives a
   * registry holding the built-ins and the new entry, each key once.
   */
  lemma RegisteredNewKey(key: DumperKey, h: Handler)
    requires key.name !in {"Serializable", "datetime", "date", "list"}
    ensures BuiltIn(Registry(Registered(SerializerDumpers, key, h)), SerializerDumpers + [Entry(key, h)])
  {
    assert Lookup(SerializerDumpers, key).None?;
  }

  /**
   * The example of `register_dumper`, first half: registered under the name
   * of class A, a dumper applies to instances of A but not of its subclass
   * B, wherever the new entry sits in the registry.
   */
  lemma RegisterByName(a: Object, b: Object, c: Scalar, d: Dispatch)
    requires a.cls == "MyClassA" && a.bases == {}
    requires b.cls == "MyClassB" && b.bases == {"MyClassA"}
    requires BuiltIn(d, SerializerDumpers + [Entry(NameKey("MyClassA"), ConstHandler(c))])
    ensures Dumps(Obj(a), NoArgs, d) == Ok(ScalarValue(c))
    ensures Dumps(Obj(b), NoArgs, d) == Ok(Obj(b))
  {
    var base := SerializerDumpers + [Entry(NameKey("MyClassA"), ConstHandler(c))];
    OnlyNewEntry(Obj(a), NameKey("MyClassA"), c, d);
    assert Ancestors(Obj(b)) == {"MyClassB", "object", "MyClassA"};
    forall e | e in d.entries ensures !Matches(e.key, Obj(b)) {
      assert e in base;
    }
    PassThrough(Obj(b), NoArgs, d);
  }

  /** Second half: registered under class A itself, the dumper applies to A and to its subclass B. */
  lemma RegisterByClass(a: Object, b: Object, c: Scalar, d: Dispatch)
    requires a.cls == "MyClassA" && a.bases == {}
    requires b.cls == "MyClassB" && b.bases == {"MyClassA"}
    requires BuiltIn(d, SerializerDumpers + [Entry(TypeKey("MyClassA"), ConstHandler(c))])
    ensures Dumps(Obj(a), NoArgs, d) == Ok(ScalarValue(c))
    ensures Dumps(Obj(b), NoArgs, d) == Ok(ScalarValue(c))
  {
    assert Ancestors(Obj(b)) == {"MyClassB", "object", "MyClassA"};
    OnlyNewEntry(Obj(a), TypeKey("MyClassA"), c, d);
    OnlyNewEntry(Obj(b), TypeKey("MyClassA"), c, d);
  }

  /**
   * An object of a user class that only the new entry matches is dumped by
   * that entry alone, whatever the order of the registry.
   */
  lemma OnlyNewEntry(v: Value, key: DumperKey, c: Scalar, d: Dispatch)
    requires v.Obj? && Matches(key, v)
    requires !IsInstance(v, "Serializable") && !IsInstance(v, "list") && ClassName(v) !in {"datetime", "date"}
    requires BuiltIn(d, SerializerDumpers + [Entry(key, ConstHandler(c))])
    ensures Dumps(v, NoArgs, d) == Ok(ScalarValue(c))
  {
    var base := SerializerDumpers + [Entry(key, ConstHandler(c))];
    var j := FindEntry(d, base, base[4]);
    forall k | 0 <= k < |d.entries| && k != j
      ensures !Matches(d.entries[k].key, v) && !Matches(d.entries[k].key, ScalarValue(c))
    {
      assert d.entries[k] in SerializerDumpers;
    }
    Dispatched(v, NoArgs, d, j);
  }

  /** `ExpandSet` unfolded at its last member. */
  lemma ExpandSnoc(o: Object, init: seq<Selector>, last: Selector, d: Dispatch)
    ensures ExpandSet(o, init + [last], d) == Then(ExpandSet(o, init, d), AttributeEntry(o, last.key, Keys.UnpackArgs(last).1, d))
  {
    var ms := init + [last];
    assert ms[..|ms| - 1] == init && ms[|ms| - 1] == last;
  }

  /**
   * `serialize_iterable` / `jsonify_iterable` as written: one dictionary,
   * filled selector by selector, set members written as they are met; the
   * first exception ends the walk.
   */
  method SerializeIterableLoop(o: Object, sels: seq<Selector>, exclude: Option<seq<string>>, d: Dispatch)
    returns (r: Result<map<string, Value>, Error>)
    ensures r == SerializeIterable(o, sels, exclude, d)
  {
    r := Ok(map[]);
    var i := 0;
    assert sels[..0] == [];
    while i < |sels| && r.Ok?
      invariant Walked(o, sels, exclude, d, i, r)
      decreases |sels| - i
    {
      r, i := SerializeStep(o, sels, exclude, d, i, r);
    }
    if r.Ok? {
      assert sels[..i] == sels;
    }
  }

  /**
   * The loop state of `serialize_iterable` after `i` selectors: the walk of
   * the first `i` while nothing failed, or the error that ends the walk.
   */
  ghost predicate Walked(o: Object, sels: seq<Selector>, exclude: Option<seq<string>>, d: Dispatch,
                         i: nat, r: Result<map<string, Value>, Error>)
  {
    i <= |sels|
    && (r.Ok? ==> r == SerializeIterable(o, sels[..i], exclude, d))
    && (r.Err? ==> r == SerializeIterable(o, sels, exclude, d))
  }

  /** One pass of the loop of `serialize_iterable`: selector `i` skipped when excluded, otherwise written. */
  method SerializeStep(o: Object, sels: seq<Selector>, exclude: Option<seq<string>>, d: Dispatch,
                       i: nat, before: Result<map<string, Value>, Error>)
    returns (r: Result<map<string, Value>, Error>, next: nat)
    requires i < |sels| && before.Ok? && Walked(o, sels, exclude, d, i, before)
    ensures next == i + 1 && Walked(o, sels, exclude, d, next, r)
  {
    IterableStep(o, sels, i, exclude, d);
    next := i + 1;
    if Keys.Excluded(sels[i].key, exclude) {
      return before, next;
    }
    r := WriteSelector(o, sels[i].key, Keys.UnpackArgs(sels[i]).1, d, before.value);
    if r.Err? {
      IterableTail(o, sels, i, exclude, d, r);
    }
  }

  /** `SerializeIterable` over the first `i + 1` selectors, unfolded at selector `i`. */
  lemma IterableStep(o: Object, sels: seq<Selector>, i: nat, exclude: Option<seq<string>>, d: Dispatch)
    requires i < |sels|
    ensures SerializeIterable(o, sels[..i + 1], exclude, d) ==
            if Keys.Excluded(sels[i].key, exclude) then SerializeIterable(o, sels[..i], exclude, d)
            else Then(SerializeIterable(o, sels[..i], exclude, d), SelectorEntries(o, sels[i].key, Keys.UnpackArgs(sels[i]).1, d))
  {
    assert sels[..i + 1] == sels[..i] + [sels[i]];
    IterableSnoc(o, sels[..i], sels[i], exclude, d);
  }

  /** One selector of `serialize_iterable`: a whole attribute set, or one attribute under its alias. */
  method WriteSelector(o: Object, key: string, args: Args, d: Dispatch, before: map<string, Value>)
    returns (r: Result<map<string, Value>, Error>)
    ensures r == Then(Ok(before), SelectorEntries(o, key, args, d))
  {
    match SetMembers(o.attrSets, key) {
      case Some(members) =>
        r := WriteSet(o, members, d, before);
      case None =>
        r := WriteAttribute(o, key, args, d, before);
    }
  }

  /** One attribute of `serialize_iterable`, written under its alias. */
  method WriteAttribute(o: Object, key: string, args: Args, d: Dispatch, before: map<string, Value>)
    returns (r: Result<map<string, Value>, Error>)
    ensures r == Then(Ok(before), AttributeEntry(o, key, args, d))
  {
    var names := Keys.UnpackKey(key);
    if names.Err? {
      return Err(names.error);
    }
    var value := SerializeAttribute(o, names.value.0, args, d);
    if value.Err? {
      return Err(value.error);
    }
    assert before + map[names.value.1 := value.value] == before[names.value.1 := value.value];
    r := Ok(before[names.value.1 := value.value]);
  }

  /**
   * The inner loop of `serialize_iterable`: the members of a set written
   * one by one into the dictionary being filled.
   */
  method WriteSet(o: Object, members: seq<Selector>, d: Dispatch, before: map<string, Value>)
    returns (r: Result<map<string, Value>, Error>)
    ensures r == Then(Ok(before), ExpandSet(o, members, d))
  {
    var serialized := before;
    var j := 0;
    assert before + map[] == before;
    while j < |members|
      invariant 0 <= j <= |members|
      invariant Then(Ok(before), ExpandSet(o, members[..j], d)) == Ok(serialized)
    {
      assert members[..j + 1] == members[..j] + [members[j]];
      ExpandSnoc(o, members[..j], members[j], d);
      var written := WriteAttribute(o, members[j].key, Keys.UnpackArgs(members[j]).1, d, serialized);
      ThenAssoc(Ok(before), ExpandSet(o, members[..j], d), AttributeEntry(o, members[j].key, Keys.UnpackArgs(members[j]).1, d));
      if written.Err? {
        ExpandTail(o, members, j, d, written);
        return written;
      }
      serialized := written.value;
      j := j + 1;
    }
    assert members[..|members|] == members;
    return Ok(serialized);
  }

  /**
   * Once the walk up to selector `i` fails, the whole walk fails with that
   * error: the selectors after it are not reached.
   */
  lemma {:induction false} IterableTail(o: Object, sels: seq<Selector>, i: nat, exclude: Option<seq<string>>,
                                        d: Dispatch, e: Result<map<string, Value>, Error>)
    requires i < |sels| && e.Err?
    requires SerializeIterable(o, sels[..i + 1], exclude, d) == e
    ensures SerializeIterable(o, sels, exclude, d) == e
    decreases |sels| - i
  {
    if i + 1 < |sels| {
      assert sels[..i + 2] == sels[..i + 1] + [sels[i + 1]];
      IterableSnoc(o, sels[..i + 1], sels[i + 1], exclude, d);
      IterableTail(o, sels, i + 1, exclude, d, e);
    } else {
      assert sels[..i + 1] == sels;
    }
  }

  /** Once the members up to `j` fail, the whole set fails with that error. */
  lemma {:induction false} ExpandTail(o: Object, members: seq<Selector>, j: nat, d: Dispatch,
                                      e: Result<map<string, Value>, Error>)
    requires j < |members| && e.Err?
    requires ExpandSet(o, members[..j + 1], d) == e
    ensures ExpandSet(o, members, d) == e
    decreases |members| - j
  {
    if j + 1 < |members| {
      assert members[..j + 2] == members[..j + 1] + [members[j + 1]];
      ExpandSnoc(o, members[..j + 1], members[j + 1], d);
      ExpandTail(o, members, j + 1, d, e);
    } else {
      assert members[..j + 1] == members;
    }
  }

  /** `serialize` / `jsonify_model` as written: the dictionary updated with the base walk and then with `include`. */
  method SerializeUpdate(o: Object, only: Selectors, exclude: Option<seq<string>>, includes: Selectors, d: Dispatch)
    returns (r: Result<map<string, Value>, Error>)
    ensures r == Serialize(o, only, exclude, includes, d)
  {
    var serialized: map<string, Value> := map[];
    var part;
    if Truthy(only) {
      part := SerializeIterableLoop(o, only.list, None, d);
    } else {
      part := SerializeIterableLoop(o, o.attributes, exclude, d);
    }
    if part.Err? {
      return part;
    }
    assert serialized + part.value == part.value;
    serialized := serialized + part.value;
    if Truthy(includes) {
      part := SerializeIterableLoop(o, includes.list, None, d);
      if part.Err? {
        return part;
      }
      serialized := serialized + part.value;
    } else {
      assert serialized + map[] == serialized;
    }
    return Ok(Keys.Cleanup(serialized));
  }

  /** The first element that fails to dump decides the error of the whole list. */
  lemma {:induction false} FirstError(xs: seq<Value>, i: nat, args: Args, d: Dispatch)
    requires i < |xs| && Dumps(xs[i], args, d).Err?
    requires forall k :: 0 <= k < i ==> Dumps(xs[k], args, d).Ok?
    ensures DumpList(xs, args, d) == Err(Dumps(xs[i], args, d).error)
  {
    if i > 0 {
      assert forall k :: 0 <= k < i - 1 ==> xs[1..][k] == xs[k + 1];
      FirstError(xs[1..], i - 1, args, d);
    }
  }

  /** json_alchemy's list branch as written: `tmp.append(dumps(obj, args))` for every element. */
  method DumpListLoop(xs: seq<Value>, args: Args) returns (r: Result<seq<Value>, Error>)
    ensures r == DumpList(xs, args, ElifChain)
  {
    var tmp: seq<Value> := [];
    var i := 0;
    while i < |xs|
      invariant 0 <= i <= |xs| && |tmp| == i
      invariant forall k :: 0 <= k < i ==> Dumps(xs[k], args, ElifChain) == Ok(tmp[k])
    {
      var y := Dumps(xs[i], args, ElifChain);
      if y.Err? {
        FirstError(xs, i, args, ElifChain);
        return Err(y.error);
      }
      tmp := tmp + [y.value];
      i := i + 1;
    }
    DumpListElementwise(xs, args, ElifChain, tmp);
    return Ok(tmp);
  }
}
