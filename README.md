# serializer, bourne, json_alchemy and sqlalchemy_serializers in Dafny

The repository turns objects into plain key-to-value dictionaries that are
later written as JSON or XML. It does this in four variants. Each variant has
two halves:

- **Selection** (`serialize` / `jsonify_model`, `serialize_iterable` /
  `jsonify_iterable`, `cleanup`): choose the attribute selectors, expand
  attribute sets, split `"attr as alias"` keys, read each attribute (or the
  `empty` sentinel), then drop the `empty` entries.
- **Normalisation** (`dumps`, `dump_object` / `dump_non_callable`,
  `dump_callable`): call functions and bound methods, recurse into nested
  serializable objects with the copied `only`/`include`/`exclude`, map over
  lists, write dates and datetimes in the full-date and date-time forms of
  section 5.6 of RFC 3339, and turn SQLAlchemy's `Enum` type into None.

The model is organised as follows:

- `values.dfy`: the Python values the engine meets, as one datatype.
  - `Missing` is the `empty` sentinel.
  - A function or bound method is `Fn`. It carries what it returns for each call shape.
  - An object carries its class, its base classes, `attributes()`, `attribute_sets()` and a finite list of fields that stands in for `hasattr`/`getattr`.
  - Ghost size measures prove that the mutual recursion terminates. Values are well-founded trees.
- `dates.dfy`: `date.isoformat()`, `datetime.isoformat() + 'Z'` and `strftime('%Y-%m-%dT%H:%M:%SZ')`. Parsers for the date and date-time forms prove that each form reads back as the value written.
- `keys.dfy`: the helpers the variants share.
  - `unpack_args` and `unpack_key`. A key with two `" as "` separators is a `ValueError`.
  - `copy_args`.
  - The `exclude` test on raw keys.
  - `cleanup` as a filter.
- `engine.dfy`: one engine for serializer, bourne and json_alchemy. They differ only in dispatch:
  - serializer and bourne walk the `OBJECT_DUMPERS` registry, an explicit sequence of entries, with each key tried once against the value the earlier handlers left;
  - json_alchemy has a fixed `elif` chain.

  Errors a variant raises are a `Result`: the two-separator key, and the year before 1900 that Python 2's `strftime` refuses.
- `engine_props.dfy`: selection, aliasing, set expansion, handler dispatch and the built-in handlers of each variant. The registry lemmas hold for any order of the built-in entries, because a Python 2 dictionary's iteration order is not fixed.
- `engine_state.dfy`: the imperative parts, each proved equal to the function it computes:
  - the `OBJECT_DUMPERS` dictionary as a class with `register_dumper`;
  - the `dump_object` loop;
  - the `serialize_iterable` loops;
  - the `update` calls of `serialize`;
  - json_alchemy's list loop.
- `alchemy.dfy`, `alchemy_props.dfy`, `alchemy_state.dfy`: the sqlalchemy_serializers variant.
  - `dumps` with `default`, and `dump_callable` with `func_args`.
  - `jsonify_attribute` with `attr`.
  - No `" as "` aliasing.
  - `cleanup` deleting keys in place.
  - `jsonify_attribute` writing `attr` into the caller's argument dictionary.

## Model

| member | source | states |
|---|---|---|
| Values.GetAttr | serializer/__init__.py:431-434 | `hasattr`/`getattr`: a value exactly when the object has a field of that name, and that value is the first such field's value |
| Values.SetMembers | serializer/__init__.py:405-406 | `attr_sets[key]`: members exactly when a set of that name exists, and they are the first such set's members |
| Values.Ancestors | serializer/__init__.py:318 | the names `isinstance` accepts always include the value's own class name and `object` |
| Values.InstanceOfOwnClass | serializer/__init__.py:318 | `isinstance` holds for every value against its own class and against `object` |
| Values.IsCallable | serializer/__init__.py:15-17 | `is_callable` holds only for functions, and for every plain function and bound method |
| Dates.FormatDate | serializer/__init__.py:271 | `date.isoformat()` is a 10-character string |
| Dates.IsoDateTimeZ | bourne/__init__.py:162 | `isoformat() + 'Z'` is 20 characters, or 27 when the microsecond is not zero |
| Dates.StrftimeZ | serializer/__init__.py:270 | `strftime('%Y-%m-%dT%H:%M:%SZ')` is 20 characters; only for years from 1900 on |
| Dates.ParseDate | serializer/__init__.py:271 | a string that reads as a date has the 10 characters of the full-date form |
| Dates.DateRoundTrip | serializer/__init__.py:271 | the full-date form reads back as the date it came from |
| Dates.DateCanonical | serializer/__init__.py:271 | a string that reads as a date is exactly that date's form |
| Dates.ClockRoundTrip | bourne/__init__.py:162 | the `HH:MM:SS` part reads back as the time it came from |
| Dates.DateTimeZRoundTrip | bourne/__init__.py:162 | the `...Z` form reads back as the datetime, microseconds included |
| Dates.StrftimeAgreesWithIso | serializer/__init__.py:270 | the serializer and bourne datetime forms agree if and only if the microsecond is zero |
| Dates.DateTimeIsNotDate | json_alchemy/__init__.py:39-42 | a datetime's form never reads as a full date |
| Keys.UnpackArgs | serializer/__init__.py:334-343 | a pair gives its key and dictionary; a bare key gives itself and the empty dictionary |
| Keys.Excluded | serializer/__init__.py:403 | `exclude and key in exclude`: never with no or an empty `exclude`, and only when the raw key is one of its entries |
| Keys.FindSep | serializer/__init__.py:356 | the first `" as "` at or after a position, and none before it |
| Keys.UnpackKey | serializer/__init__.py:346-359 | no separator gives `(key, key)`; one separator gives the two parts around it, neither holding a separator, split at the first occurrence as `str.split` finds it; two or more are a `ValueError` |
| Keys.OverlappingSeparators | serializer/__init__.py:356 | `"x as as y"` splits at the first `" as "` into `("x", "as y")` |
| Keys.Aliased | serializer/__init__.py:346-359 | `"src as alias"` always holds the separator |
| Keys.UnpackAliased | serializer/__init__.py:346-359 | `unpack_key` splits `"src as alias"` back into `src` and `alias` |
| Keys.TwoSeparatorsRefused | serializer/__init__.py:356-359 | a key with two separators cannot be unpacked into two names |
| Keys.CopyArgs | serializer/__init__.py:323-331 | exactly `only`, `include` and `exclude` are kept with their values; `default`, `attr` and `func_args` are dropped |
| Keys.CopyArgsIdempotent | bourne/__init__.py:215-223 | copying a copy changes nothing |
| Keys.Cleanup | serializer/__init__.py:388 | exactly the entries whose value is not `empty`, with values unchanged |
| Keys.CleanupIdempotent | json_alchemy/__init__.py:219 | cleaning up twice is cleaning up once |
| Keys.CleanupKeepsClean | bourne/__init__.py:280 | a dictionary without `empty` values is left as it is |
| Engine.ScalarValue | serializer/__init__.py:276-302 | a registered constant dumper returns a plain value that is not callable and not `empty` |
| Engine.Dumps | serializer/__init__.py:20-24 | normalising never makes a value larger, so nested dumping terminates |
| Engine.DumpObject | serializer/__init__.py:305-320 | the registry walk or the `elif` chain never makes a value larger |
| Engine.ApplyDumpers | serializer/__init__.py:314-319 | the loop from entry `i` on, each key tried once against the current value |
| Engine.Apply | serializer/__init__.py:268-273 | one handler never makes its value larger |
| Engine.DumpNonCallable | json_alchemy/__init__.py:24-45 | the `elif` chain never makes a value larger |
| Engine.DumpList | serializer/__init__.py:272 | a dumped list has the length of the original |
| Engine.Serialize | serializer/__init__.py:237-265 | the selection never holds `empty` |
| Engine.AttributeEntry | serializer/__init__.py:412-416 | one attribute writes exactly one key, its alias |
| Engine.AttributeValue | serializer/__init__.py:431-434 | the first field of that name's value, or `empty` exactly when no field has that name |
| Engine.Matches | serializer/__init__.py:314-318 | a registry key matches only a value that is an instance of the key's class name |
| Engine.SerializeIterable | serializer/__init__.py:391-417 | when every selector's raw key is excluded, the result is the empty dictionary |
| Engine.SelectorEntries | serializer/__init__.py:405-416 | a selector that is not a set writes exactly one key, its alias |
| Engine.ExpandSet | serializer/__init__.py:405-411 | every key a set writes is the alias of one of its members |
| Engine.SerializeAttribute | serializer/__init__.py:420-438 | the attribute's value dumped with the selector's arguments, or `empty` dumped when there is no such attribute |
| EngineProps.FieldWritten | serializer/__init__.py:412-416 | a plain, non-excluded attribute written last appears under its own name with its field's dumped value |
| EngineProps.Kept | serializer/__init__.py:403-404 | the selectors left after `exclude` are no more than the given ones |
| EngineProps.KeptMembers | serializer/__init__.py:403-404 | a selector is kept if and only if its raw key is not excluded |
| EngineProps.ExcludeIsFilter | serializer/__init__.py:400-417 | skipping excluded selectors equals walking the list they leave, before alias splitting and set expansion |
| EngineProps.Selection | serializer/__init__.py:251-265 | a truthy `only`, with `exclude` ignored, or `attributes()` less the excluded raw keys; then `include` written over it; then `cleanup` |
| EngineProps.FalsyOnly | bourne/__init__.py:150-153 | an absent, None or empty `only` selects like no `only` |
| EngineProps.IterableConcat | serializer/__init__.py:400-417 | the dictionary of `xs + ys` is that of `xs` updated by that of `ys`, so the last write to a key wins |
| EngineProps.IncludeWins | serializer/__init__.py:262-263 | an `include` entry is in the result with its value whatever the base wrote; an `empty` one removes the key |
| EngineProps.SetIgnoresOuterArgs | serializer/__init__.py:405-411 | a set's key writes its members with their own arguments; the outer arguments make no difference |
| EngineProps.MemberNotExpanded | serializer/__init__.py:407-411 | a set member is always read as an attribute, never expanded again |
| EngineProps.AliasedSelector | bourne/__init__.py:302-304 | `"src as alias"` reads `src` with the selector's arguments and writes it under `alias` |
| EngineProps.ExcludedSkipped | bourne/__init__.py:294-296 | an excluded raw key writes nothing, and excluding an attribute's name does not exclude its aliased key |
| EngineProps.FoldUnmatched | serializer/__init__.py:314-320 | when no key matches, the registry walk returns the value unchanged |
| EngineProps.PassThrough | json_alchemy/__init__.py:45 | a value that no handler matches and that is not callable comes out of `dumps` unchanged |
| EngineProps.LastAttributeWrite | tests/test_serializable.py:110-118 | a missing attribute written last leaves its key absent whatever came before; a None attribute stays None |
| EngineProps.FoldOneMatch | serializer/__init__.py:314-319 | when exactly one key matches, the walk is that handler |
| EngineProps.Dispatched | serializer/__init__.py:314-319 | the one matching handler decides `dumps` |
| EngineProps.FindEntry | serializer/__init__.py:268-273 | each built-in entry is found once in a registry holding the built-ins in any order |
| EngineProps.SerializerDateTime | serializer/__init__.py:270 | a datetime becomes its strftime form, or `ValueError` before 1900 |
| EngineProps.BourneDateTime | bourne/__init__.py:162 | a datetime becomes `isoformat() + 'Z'`, which reads back as the datetime |
| EngineProps.RegistryDate | bourne/__init__.py:163 | a date becomes its full-date form, which reads back as the date |
| EngineProps.SerializerList | serializer/__init__.py:272 | a list or list subclass becomes the element-wise dumped list |
| EngineProps.BourneList | bourne/__init__.py:164 | only exact `list` instances are mapped; a subclass instance is left unchanged |
| EngineProps.RegistryNested | serializer/__init__.py:269 | a nested serializable becomes its own selection under the copied `only`/`include`/`exclude` |
| EngineProps.ScalarsUntouched | serializer/__init__.py:268-273 | scalars, dictionaries and `empty` pass every initial dispatch unchanged |
| EngineProps.CalledOnce | bourne/__init__.py:16-20 | a function or bound method is called once with no arguments, and its result is not called again |
| EngineProps.ChainDateTime | json_alchemy/__init__.py:39-40 | a datetime gets the `...Z` form, never the date-only form |
| EngineProps.ChainDate | json_alchemy/__init__.py:41-42 | a date gets the full-date form, which reads back as the date |
| EngineProps.ChainEnum | json_alchemy/__init__.py:43-44 | an `Enum` instance always becomes None |
| EngineProps.ChainNested | json_alchemy/__init__.py:32-33 | a nested JSONMixin becomes `jsonify_model` with only `only`/`include`/`exclude` |
| EngineProps.ChainList | json_alchemy/__init__.py:34-38 | a list becomes a list of the same length of dumped elements, with `empty` elements kept |
| EngineProps.DumpListElementwise | json_alchemy/__init__.py:34-38 | the list dumps to `ys` if and only if every element dumps to the element of `ys` at its position |
| EngineProps.NormalFormFixed | serializer/__init__.py:20-24 | normalising an already normal value changes nothing |
| EngineState.Lookup | serializer/__init__.py:317 | a handler exactly when the key is in the registry |
| EngineState.IndexOf | serializer/__init__.py:317 | the position of a registered key |
| EngineState.LookupUnique | serializer/__init__.py:317 | with unique keys, a key's lookup gives its own handler |
| EngineState.RegisteredSetsOneEntry | serializer/__init__.py:302 | registering sets one entry: the key maps to the new handler, other keys keep handler and place, keys stay unique |
| EngineState.ObjectDumpers.ForSerializer | serializer/__init__.py:268-273 | serializer's initial registry, keys unique |
| EngineState.ObjectDumpers.ForBourne | bourne/__init__.py:160-165 | bourne's initial registry, keys unique |
| EngineState.ObjectDumpers.Register | serializer/__init__.py:276-302 | `OBJECT_DUMPERS[key] = dumper` in place, keeping keys unique |
| EngineState.ObjectDumpers.DumpObject | serializer/__init__.py:305-320 | the loop reassigning `value` computes the registry walk |
| EngineState.HandlersChain | bourne/__init__.py:206-211 | a later key is matched against what an earlier handler returned, so order matters |
| EngineState.Registered | serializer/__init__.py:302 | `OBJECT_DUMPERS[key] = dumper`: the new entry is present; an existing key keeps the registry's size, a new one adds one entry |
| EngineState.RegisteredAt | serializer/__init__.py:302 | the new entry sits at the key's old place, or one past the end when the key is new; every other place is unchanged |
| EngineState.OnlyNewEntry | serializer/__init__.py:314-319 | an object that only the registered key matches gets that dumper's value, wherever the entry sits |
| EngineState.RegisteredNewKey | serializer/__init__.py:302 | registering a key that is not built in leaves every built-in entry in the registry beside the new one |
| EngineState.RegisterByName | serializer/__init__.py:281-289 | under the name `'MyClassA'` the dumper applies to `MyClassA` but not to its subclass, wherever the entry sits among the built-ins |
| EngineState.RegisterByClass | serializer/__init__.py:292-300 | under the class `MyClassA` the dumper applies to the class and its subclass, wherever the entry sits among the built-ins |
| EngineState.SerializeIterableLoop | serializer/__init__.py:391-417 | the loop filling `serialized` computes the selector walk |
| EngineState.SerializeStep | serializer/__init__.py:402-416 | one pass of the loop: an excluded selector leaves the dictionary, another writes its entries, and an error ends the walk |
| EngineState.WriteSelector | serializer/__init__.py:405-416 | one selector's writes into the dictionary being filled |
| EngineState.WriteAttribute | serializer/__init__.py:412-416 | one attribute written under its alias |
| EngineState.WriteSet | bourne/__init__.py:298-301 | the inner loop over a set's members |
| EngineState.IterableTail | serializer/__init__.py:391-417 | the first exception ends the whole walk |
| EngineState.ExpandTail | serializer/__init__.py:407-411 | the first exception ends the set's loop |
| EngineState.SerializeUpdate | bourne/__init__.py:149-157 | the dictionary updated with the base and then with `include`, then cleaned |
| EngineState.FirstError | serializer/__init__.py:272 | the first element that fails decides the list's error |
| EngineState.DumpListLoop | json_alchemy/__init__.py:35-38 | the `tmp.append` loop computes the element-wise list |
| Alchemy.Dumps | sqlalchemy_serializers/__init__.py:18-28 | `empty` always stays `empty` |
| Alchemy.DumpNonCallable | sqlalchemy_serializers/__init__.py:46-67 | a list stays a list of the same length; a datetime or date becomes a string that reads back as it; any other value that is not a model or an `Enum` is unchanged |
| Alchemy.JsonifyIterable | sqlalchemy_serializers/__init__.py:229-242 | when every selector's raw key is excluded, the result is the empty dictionary |
| Alchemy.SetEntries | sqlalchemy_serializers/__init__.py:236-239 | every key a set writes is one of its members' keys |
| Alchemy.JsonifyAttribute | sqlalchemy_serializers/__init__.py:245-261 | a missing attribute, named by the key or by `attr`, gives `empty` |
| Alchemy.DumpCallable | sqlalchemy_serializers/__init__.py:31-43 | non-callables unchanged; callables give one of their call results |
| Alchemy.DumpList | sqlalchemy_serializers/__init__.py:56-60 | a dumped list has the length of the original |
| Alchemy.JsonifyModel | sqlalchemy_serializers/__init__.py:212-226 | the result never holds `empty` |
| Alchemy.WithAttr | sqlalchemy_serializers/__init__.py:248-249 | `attr` defaults to the key; an existing `attr` is kept |
| Alchemy.AttrValue | sqlalchemy_serializers/__init__.py:251-257 | a function `attr` is the value itself; a name `attr` gives the first field of that name's value, or `empty` when there is none |
| AlchemyProps.CallShapes | sqlalchemy_serializers/__init__.py:31-43 | no, empty-list or empty-dict `func_args` means no arguments; a non-empty list is positional; a non-empty dict is keyword; anything else is one argument |
| AlchemyProps.DefaultOnNone | sqlalchemy_serializers/__init__.py:25-27 | a None result with `default` becomes the default dumped with the copied dictionary, and that is final |
| AlchemyProps.NoFallback | sqlalchemy_serializers/__init__.py:18-28 | without `default`, or when the result is not None, `dumps` is the call then the chain |
| AlchemyProps.MissingNeverReplaced | sqlalchemy_serializers/__init__.py:25 | `empty` is never replaced by a default |
| AlchemyProps.DumpListAt | sqlalchemy_serializers/__init__.py:57-59 | element `i` of the list is element `i` dumped with the full dictionary |
| AlchemyProps.ListDefaults | sqlalchemy_serializers/__init__.py:56-60 | a list keeps its length, and with `default` every None element becomes the dumped default |
| AlchemyProps.DateTimeForm | sqlalchemy_serializers/__init__.py:61-62 | a datetime gets the `...Z` form, which reads back, and is never defaulted |
| AlchemyProps.NestedModel | sqlalchemy_serializers/__init__.py:54-55 | a nested JSONMixin becomes `jsonify_model` under the copied selections |
| AlchemyProps.ScalarsKept | sqlalchemy_serializers/__init__.py:67 | scalars pass through, None only without `default` |
| AlchemyProps.EnumBecomesNone | sqlalchemy_serializers/__init__.py:65-66 | the Enum type becomes None, which a `default` then replaces |
| AlchemyProps.AttrDefaultsToKey | sqlalchemy_serializers/__init__.py:248-259 | without `attr` the attribute named by the key is read, or `empty` |
| AlchemyProps.ExplicitAttr | sqlalchemy_serializers/__init__.py:248-257 | an explicit name `attr` is read instead of the key, and dumped with the same dictionary; a missing one gives `empty` |
| AlchemyProps.ExplicitAttrExample | sqlalchemy_serializers/__init__.py:248-257 | with `likes` 3 and `views` 7, key `views` with `attr='likes'` gives 3, and without `attr` gives 7 |
| AlchemyProps.AttrFunctionIsCalled | sqlalchemy_serializers/__init__.py:251-252 | a function `attr` is the value and is then called with `func_args` |
| AlchemyProps.SameKeyAfterMutation | sqlalchemy_serializers/__init__.py:248-249 | a second run with the dictionary the first run left gives the same value |
| AlchemyProps.SetEntriesKeys | sqlalchemy_serializers/__init__.py:236-239 | a set writes exactly its members' own keys |
| AlchemyProps.KeysVerbatim | sqlalchemy_serializers/__init__.py:233-241 | the result's keys are exactly the non-excluded selector keys, verbatim, with each set replaced by its members' keys |
| AlchemyProps.LastValue | sqlalchemy_serializers/__init__.py:240-241 | the value under a plain key is read with that selector's own dictionary, whatever came before |
| AlchemyProps.ExcludeIsFilter | sqlalchemy_serializers/__init__.py:233-235 | skipping excluded selectors equals walking the list they leave |
| AlchemyProps.IterableSnoc | sqlalchemy_serializers/__init__.py:233-241 | one more selector at the end writes over what came before |
| AlchemyProps.Selection | sqlalchemy_serializers/__init__.py:218-226 | a truthy `only` with `exclude` ignored, or `attributes()` less `exclude`; then `include` over it; then `cleanup` |
| AlchemyProps.NoneAsDefault | tests/json_test.py:125-133 | `only=[('name', {'default': None})]` with a None name gives `{'name': None}` |
| AlchemyProps.MissingKeyAbsent | sqlalchemy_serializers/__init__.py:254-255 | a missing attribute's key is absent from the result |
| AlchemyState.JsonDict.constructor | sqlalchemy_serializers/__init__.py:218 | a dictionary with the given entries |
| AlchemyState.JsonDict.Update | sqlalchemy_serializers/__init__.py:220-224 | `dict.update`: the other dictionary's entries win |
| AlchemyState.JsonDict.Cleanup | sqlalchemy_serializers/__init__.py:200-209 | deletes in place exactly the `empty` entries, leaves the rest unchanged and returns the same dictionary |
| AlchemyState.ArgsDict.constructor | sqlalchemy_serializers/__init__.py:245 | the caller's argument dictionary |
| AlchemyState.JsonifyAttributeInPlace | sqlalchemy_serializers/__init__.py:245-261 | a non-empty dictionary without `attr` gets `attr = key` in place; an empty one is untouched; the value is the attribute read |
| AlchemyState.SharedDictionary | sqlalchemy_serializers/__init__.py:233-241 | with one dictionary shared by two keys, the second key reads the `attr` the first one wrote |
| AlchemyState.SharedDictionaryCounterexample | sqlalchemy_serializers/__init__.py:248-249 | with `{'default': 0}` shared by `likes` and `views`, `views` gets the `likes` value |
| AlchemyState.SetEntriesSnoc | sqlalchemy_serializers/__init__.py:238-239 | one more member writes its own key over the rest |
| AlchemyState.WriteMembers | sqlalchemy_serializers/__init__.py:236-239 | the inner loop writes the set's entries over the dictionary |
| AlchemyState.JsonifyIterableLoop | sqlalchemy_serializers/__init__.py:229-242 | the loop filling `json` computes the selector walk |
| AlchemyState.JsonifyModelUpdate | sqlalchemy_serializers/__init__.py:212-226 | the updates and the in-place cleanup compute the selection, without `empty` |
| AlchemyState.DumpListLoop | sqlalchemy_serializers/__init__.py:56-60 | the `tmp.append` loop computes the element-wise list |

## Left out

- `Dict2XML`, `to_xml`, `to_json` and `as_json` are not modelled. They are XML DOM building and JSON string encoding in foreign libraries. serializer's `as_json` passes `only`/`exclude`/`include` on to `serialize` (serializer/__init__.py:234); serializer's `to_json` (serializer/__init__.py:141) and bourne's `as_json` (bourne/__init__.py:51-57) drop them.
- `attributes()` reading the SQLAlchemy table's columns is not modelled. Each object carries its selector list instead.
- Python's dynamic `hasattr`/`getattr`, properties and descriptors are replaced by a finite list of fields. The first field of a name is the attribute.
- Functions and bound methods are tagged values that carry their results, one per call shape. What a call returns does not depend on the argument values.
- User dumpers given to `register_dumper` are constant functions. Arbitrary Python callables are not modelled.
- A Python 2 dictionary's iteration order is not modelled. The registry is an explicit sequence. The built-in behaviour lemmas hold for any order of the built-in entries, and no order is claimed.
- Dates and datetimes are naive. Timezone-aware values are not modelled; they would add an offset before the `Z`. The day of the month is bounded by 31, not by the month's length.
- Object graphs are well-founded trees. The code has no cycle detection, and a cyclic graph would not terminate.
- `unpack_args` on a tuple that is not a pair, or on a bare string passed as `only`, is not modelled. A selector is a bare key or a pair.
- A bound method given as `attr` in sqlalchemy_serializers is not modelled. Only a plain function is used directly there.
- Instances of user classes derived from `list`, `datetime` or `date` are not modelled in sqlalchemy_serializers. Its lists, dates and datetimes are the built-in types.
- Apply (Engine.Apply): a built-in handler applied to a user class that merely shares its key's name raises `HandlerTypeError`. The attribute error Python would raise is not distinguished. The same error is raised for an object value whose bases include `list`, which serializer's `list` class key matches (serializer/__init__.py:318); Python would apply the handler to the instance's own list contents. A list subclass is modelled instead as a list value tagged with its class name, and that is dumped element-wise.
- DumpNonCallable (Engine.DumpNonCallable): an object value whose bases include `list`, `datetime` or `date` passes json_alchemy's `isinstance` tests (json_alchemy/__init__.py:34-42), where Python applies the branch, but raises `HandlerTypeError` in the model. Object values carry no list items or date fields for the branch to format. Only date and datetime values, and list values of any list class, are formatted.
- Registered (EngineState.Registered): a key that is new is appended to the end of the registry sequence. This is a modelling choice: a Python 2 dictionary has no defined order. RegisterByName and RegisterByClass are proved for the new entry at any position among the built-ins.
- JsonifyIterableLoop (AlchemyState.JsonifyIterableLoop) and JsonifyIterable (Alchemy.JsonifyIterable): each selector is read with its own argument dictionary. The `attr` that `jsonify_attribute` writes into a dictionary shared by several selectors (sqlalchemy_serializers/__init__.py:248-249) is carried to the next selector only in AlchemyState.SharedDictionary and AlchemyState.JsonifyAttributeInPlace.
- JsonifyAttributeInPlace (AlchemyState.JsonifyAttributeInPlace): a dictionary that holds only keys with no effect on dumping, such as `{'only': None}`, is truthy in Python and would receive `attr`. The model's argument record cannot tell it from an absent dictionary, so it is left unchanged there.

## Findings

| source | as written | input that shows it | evidently intended | confidence | as-written member | corrected member |
|---|---|---|---|---|---|---|
| sqlalchemy_serializers/__init__.py:248-249 | `jsonify_attribute` writes `attr = json_key` into the caller's own non-empty argument dictionary | `only=[('likes', d), ('views', d)]` with `d = {'default': 0}`, likes 3 and views 7: `views` is written as 3 | every key reads its own attribute, so `views` is 7 | medium, not executed | AlchemyState.SharedDictionaryCounterexample | AlchemyProps.LastValue |
