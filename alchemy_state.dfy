/**
 * The parts of the sqlalchemy_serializers variant that change things in
 * place: `cleanup` deleting keys from the dictionary it is given,
 * `jsonify_attribute` writing `attr` into the caller's argument dictionary,
 * and the loops of `jsonify_model`, `jsonify_iterable` and the list branch
 * of `dump_non_callable`.  Each is proved equal to the function of
 * `Alchemy` that it computes.
 */
module AlchemyState {

  import opened Wrappers
  import opened Values
  import opened Alchemy
  import Keys
  import AlchemyProps

  /** A JSON dictionary under construction. */
  class JsonDict {
    var entries: map<string, Value>

    constructor (m: map<string, Value>)
      ensures entries == m
    {
      entries := m;
    }

    /** `dict.update`: the other dictionary's entries win. */
    method Update(other: map<string, Value>)
      modifies this
      ensures entries == old(entries) + other
    {
      entries := entries + other;
    }

    /**
     * `cleanup`: walks a copy of the keys, deletes every key whose value is
     * `empty`, and returns the same dictionary.
     */
    method Cleanup() returns (self: JsonDict)
      modifies this
      ensures self == this
      ensures entries == Keys.Cleanup(old(entries))
    {
      var keys := entries.Keys;
      ghost var start := entries;
      while keys != {}
        invariant keys <= start.Keys
        invariant forall k :: k in entries <==> k in start && (k in keys || start[k] != Missing)
        invariant forall k :: k in entries ==> entries[k] == start[k]
        decreases |keys|
      {
        var k :| k in keys;
        if entries[k] == Missing {
          entries := entries - {k};
        }
        keys := keys - {k};
      }
      assert entries.Keys == Keys.Cleanup(start).Keys;
      return this;
    }
  }

  /** An argument dictionary owned by the caller, which `jsonify_attribute` may write to. */
  class ArgsDict {
    var args: Args

    constructor (a: Args)
      ensures args == a
    {
      args := a;
    }
  }

  /**
   * `jsonify_attribute` as written: an empty dictionary is replaced by a
   * fresh one, but a non-empty dictionary without `attr` gets `attr` set to
   * the key, in the caller's own dictionary.
   */
  method JsonifyAttributeInPlace(o: Object, key: string, d: ArgsDict) returns (r: Value)
    modifies d
    ensures old(d.args) == NoArgs ==> d.args == NoArgs
    ensures old(d.args) != NoArgs ==> d.args == WithAttr(old(d.args), key)
    ensures r == JsonifyAttribute(o, key, old(d.args))
  {
    var args := d.args;
    if args != NoArgs && args.attr.None? {
      d.args := args.(attr := Some(AttrName(key)));
      args := d.args;
    }
    var a := if args.attr.Some? then args.attr.value else AttrName(key);
    var value := AttrValue(o, a);
    r := Dumps(value, WithAttr(args, key));
  }

  /**
   * Two selectors that share one dictionary, as in
   * `only=[('likes', d), ('views', d)]`: the second reads whatever `attr`
   * the first one left in the dictionary.
   */
  method SharedDictionary(o: Object, k1: string, k2: string, d: ArgsDict) returns (v1: Value, v2: Value)
    modifies d
    ensures v1 == JsonifyAttribute(o, k1, old(d.args))
    ensures v2 == JsonifyAttribute(o, k2, if old(d.args) == NoArgs then NoArgs else WithAttr(old(d.args), k1))
  {
    v1 := JsonifyAttributeInPlace(o, k1, d);
    v2 := JsonifyAttributeInPlace(o, k2, d);
  }

  /**
   * The shared dictionary `{'default': 0}` on keys `likes` and `views`: the
   * value written under `views` is the `likes` attribute, where reading each
   * key with its own dictionary gives the `views` attribute.
   */
  lemma SharedDictionaryCounterexample(o: Object)
    requires o.fields == [Field("likes", Int(3)), Field("views", Int(7))]
    ensures var d := NoArgs.(default := Some(Int(0)));
            d != NoArgs
            && JsonifyAttribute(o, "views", WithAttr(d, "likes")) == Int(3)
            && JsonifyAttribute(o, "views", d) == Int(7)
  {
    var d := NoArgs.(default := Some(Int(0)));
    var shared := d.(attr := Some(AttrName("likes")));
    assert WithAttr(shared, "views") == shared;
    assert GetAttr(o.fields, "likes") == Some(Int(3));
    AlchemyProps.ScalarsKept(Int(3), shared);
    var own := d.(attr := Some(AttrName("views")));
    assert GetAttr(o.fields, "views") == Some(Int(7));
    AlchemyProps.ScalarsKept(Int(7), own);
  }

  lemma SetEntriesSnoc(o: Object, init: seq<Selector>, last: Selector)
    ensures var (key, args) := Keys.UnpackArgs(last);
            SetEntries(o, init + [last]) == SetEntries(o, init)[key := JsonifyAttribute(o, key, args)]
  {
    var ms := init + [last];
    assert ms[..|ms| - 1] == init && ms[|ms| - 1] == last;
  }

  /** The dictionary after the members up to `j`, written over `before`, is the one before `j` with member `j` written. */
  lemma MembersStep(o: Object, members: seq<Selector>, j: nat, before: map<string, Value>)
    requires j < |members|
    ensures var (key, args) := Keys.UnpackArgs(members[j]);
            before + SetEntries(o, members[..j + 1]) == (before + SetEntries(o, members[..j]))[key := JsonifyAttribute(o, key, args)]
  {
    assert members[..j + 1] == members[..j] + [members[j]];
    SetEntriesSnoc(o, members[..j], members[j]);
    var (key, args) := Keys.UnpackArgs(members[j]);
    MergeThenWrite(before, SetEntries(o, members[..j]), key, JsonifyAttribute(o, key, args));
  }

  /** Writing one key after merging is merging with the key already written. */
  lemma MergeThenWrite(a: map<string, Value>, b: map<string, Value>, k: string, v: Value)
    ensures a + b[k := v] == (a + b)[k := v]
  {
  }

  /** The inner loop of `jsonify_iterable` over the members of an attribute set. */
  method WriteMembers(o: Object, members: seq<Selector>, before: map<string, Value>) returns (r: map<string, Value>)
    ensures r == before + SetEntries(o, members)
  {
    r := before;
    var j := 0;
    assert before + map[] == before;
    while j < |members|
      invariant 0 <= j <= |members|
      invariant r == before + SetEntries(o, members[..j])
    {
      MembersStep(o, members, j, before);
      var (key, args) := Keys.UnpackArgs(members[j]);
      r := r[key := JsonifyAttribute(o, key, args)];
      j := j + 1;
    }
    assert members[..|members|] == members;
  }

  /** `jsonify_iterable`: the loop over the selectors, each attribute read with its own dictionary. */
  method JsonifyIterableLoop(o: Object, sels: seq<Selector>, exclude: Option<seq<string>>) returns (r: map<string, Value>)
    ensures r == JsonifyIterable(o, sels, exclude)
  {
    r := map[];
    var i := 0;
    while i < |sels|
      invariant 0 <= i <= |sels|
      invariant r == JsonifyIterable(o, sels[..i], exclude)
    {
      var next := sels[..i + 1];
      assert next[..|next| - 1] == sels[..i] && next[|next| - 1] == sels[i];
      var (key, args) := Keys.UnpackArgs(sels[i]);
      if !Keys.Excluded(key, exclude) {
        var members := SetMembers(o.attrSets, key);
        if members.Some? {
          r := WriteMembers(o, members.value, r);
        } else {
          r := r[key := JsonifyAttribute(o, key, args)];
        }
      }
      i := i + 1;
    }
    assert sels[..|sels|] == sels;
  }

  /** `jsonify_model`: a fresh dictionary, updated by the selection and `include`, then cleaned in place. */
  method JsonifyModelUpdate(o: Object, only: Selectors, exclude: Option<seq<string>>, includes: Selectors)
    returns (r: map<string, Value>)
    ensures r == JsonifyModel(o, only, exclude, includes)
    ensures forall k :: k in r ==> r[k] != Missing
  {
    var json := new JsonDict(map[]);
    var base;
    if Truthy(only) {
      base := JsonifyIterableLoop(o, only.list, None);
    } else {
      base := JsonifyIterableLoop(o, o.attributes, exclude);
    }
    json.Update(base);
    assert json.entries == base;
    if Truthy(includes) {
      var extra := JsonifyIterableLoop(o, includes.list, None);
      json.Update(extra);
    } else {
      assert base + map[] == base;
    }
    json := json.Cleanup();
    r := json.entries;
  }

  /** The list branch of `dump_non_callable`: every element appended after being dumped with the full dictionary. */
  method DumpListLoop(xs: seq<Value>, args: Args) returns (r: seq<Value>)
    ensures |r| == |xs|
    ensures r == DumpList(xs, args)
  {
    var tmp := [];
    var i := 0;
    while i < |xs|
      invariant 0 <= i <= |xs| && |tmp| == i
      invariant forall k :: 0 <= k < i ==> tmp[k] == Dumps(xs[k], args)
    {
      tmp := tmp + [Dumps(xs[i], args)];
      i := i + 1;
    }
    forall k | 0 <= k < |xs| ensures DumpList(xs, args)[k] == tmp[k] {
      AlchemyProps.DumpListAt(xs, args, k);
    }
    r := tmp;
  }
}
