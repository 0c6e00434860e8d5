# JsonNodeConverter, modelled in Dafny

The JSON editor keeps a document as a tree of `JsonNode`s. Each node has a
kind (Null, Boolean, Number, Integer, String, Array or Object), a payload, a
`Key` (its index in the parent array or its name in the parent object) and a
reference to the token it was built from. `JsonNodeConverter` converts between
that tree and Json.NET:

- `Convert` turns a parsed token tree (`JToken`) into a node tree. Scalars keep
  their payload. Array elements get the keys `"0"`, `"1"`, ... Object members are
  assigned into a dictionary by name. Any other token type logs the warning
  `Unknown Token type <type>` and yields `null`.
- `WriteJson` walks a node tree and makes the matching calls on a `JsonWriter`.
- `ReadJson` reads one token from a `JsonReader`, then converts it.

The model is imperative where the converter is. `Convert`, its array and
object loops, and `WriteJson` with its two loops are methods. The logger and
the writer are classes whose `seq` fields the methods append to. Each method is
proved against a pure function:

- `Conversion.ConvertRun` gives the outcome and the log entries of `Convert`.
  An outcome either returns a value or throws a C# exception.
- `Serialization.Events` gives the writer calls of `WriteJson`.

Properties of those functions are proved as lemmas. `ConversionProperties.Faults`
is an independent definition of what makes conversion fail, and a lemma shows
that the first fault decides the outcome and the log. Further lemmas state the
shape of the node built for each token type. `Serialization` proves three
round trips:
- the writer calls read back as one token;
- converting that token gives the tree back;
- a token tree with no faults and no repeated names survives conversion and
  writing. In the program this holds only when every Float token's value is
  exactly representable as a `float`, because `Convert` narrows it (see
  "## Left out").

Files: `optional.dfy` (Option), `tokens.dfy` (the token tree `Convert` reads),
`nodes.dfy` (the node tree, the dictionary semantics of objects, array keys),
`logging.dfy` (the logger), `writer.dfy` (the writer, and a reader over writer
calls), `conversion.dfy` (`Convert`), `conversion_properties.dfy` (what
`Convert` builds and when it fails), `serialization.dfy` (`WriteJson`,
`ReadJson`, round trips).

Two behaviours of the code that a reader might not expect:

- An unknown token type nested inside an array or object is not skipped. Its
  `null` result is dereferenced when its `Key` is assigned
  (src/Json/JsonNodeConverter.cs:115 and :130). The warning is logged and
  the whole conversion then throws a null-reference exception
  (`ConversionProperties.NestedUnknownExample`).
- When an object repeats a property name, the dictionary indexer replaces the
  value under the existing key (src/Json/JsonNodeConverter.cs:129). So the
  member keeps the position where the name FIRST appears and takes the value of
  the LAST property with that name. It does not move to the later position
  (`ConversionProperties.ConvertObject`, `ConversionProperties.DuplicateNameExample`).
  This assumes the .NET `Dictionary` enumerates in insertion order. That holds
  for a dictionary that has never had a key removed, and `Convert` never
  removes one. Json.NET's `JObject` itself keeps one property per name (loading
  a repeated name replaces the earlier property, and adding one throws), so a
  token tree read by Json.NET never reaches this path. The path exists in
  the code as written, and the model covers it for any token tree handed to
  `Convert`.

## Model

| member | source | states |
|---|---|---|
| Conversion.Convert | src/Json/JsonNodeConverter.cs:83-141 | returns exactly `ConvertRun(j).outcome` (a node, null, or a thrown exception) and appends exactly `ConvertRun(j).log` to the logger |
| Conversion.ConvertChildren | src/Json/JsonNodeConverter.cs:109-121 | the array loop returns what `ConvertElements` gives after all children; it stops at the first exception, keeping the log written up to then |
| Conversion.ConvertProperties | src/Json/JsonNodeConverter.cs:125-133 | the object loop returns what `ConvertMembers` gives after all properties, with dictionary assignment per property; it stops at the first exception |
| Conversion.AddElement | src/Json/JsonNodeConverter.cs:114-116 | one array iteration: an exception from the child passes through, a null child throws a null-reference exception, and a node is appended with its index as key, the earlier elements unchanged |
| Conversion.AddMember | src/Json/JsonNodeConverter.cs:129-130 | one object iteration: an exception from the value passes through, a null value throws a null-reference exception, and otherwise the dictionary holds the name with the node keyed by that name |
| Conversion.AddMemberSemantics | src/Json/JsonNodeConverter.cs:129 | one successful object iteration keeps a name already present in its slot, appends a new name at the end, and leaves every entry under another name unchanged |
| Conversion.ElementsFailureSticks | src/Json/JsonNodeConverter.cs:112-119 | once an element throws, later elements change neither the outcome nor the log |
| Conversion.MembersFailureSticks | src/Json/JsonNodeConverter.cs:127-131 | once a property throws, later properties change neither the outcome nor the log |
| ConversionProperties.ConvertFaults | src/Json/JsonNodeConverter.cs:83-141 | conversion returns a node and logs nothing exactly when the tree has no fault. Otherwise the first fault in visiting order decides: an unknown type logs one warning and gives null at the root or a null-reference exception below it; an integer outside 32 bits logs nothing and throws: an overflow exception when it fits 64 bits, an invalid-cast exception when it is a `BigInteger` beyond them |
| ConversionProperties.ElementsFaults | src/Json/JsonNodeConverter.cs:112-119 | the array loop after n children is decided by the first fault among them |
| ConversionProperties.MembersFaults | src/Json/JsonNodeConverter.cs:127-131 | the object loop after n properties is decided by the first fault among them |
| ConversionProperties.ElementStep | src/Json/JsonNodeConverter.cs:114-116 | one array iteration keeps the loop decided by its first fault |
| ConversionProperties.MemberStep | src/Json/JsonNodeConverter.cs:129-130 | one object iteration keeps the loop decided by its first fault |
| ConversionProperties.ChildFaultsEmpty | src/Json/JsonNodeConverter.cs:112-119 | an array's children have no fault exactly when each child converts without one |
| ConversionProperties.PropertyFaultsEmpty | src/Json/JsonNodeConverter.cs:127-131 | an object's properties have no fault exactly when each value converts without one |
| ConversionProperties.AtMostOneWarning | src/Json/JsonNodeConverter.cs:135-139 | one conversion logs at most one warning, because the first unknown type ends it |
| ConversionProperties.UnknownRoot | src/Json/JsonNodeConverter.cs:135-139 | an unknown token type at the root yields null and logs exactly the warning `Unknown Token type <type>` |
| ConversionProperties.NestedUnknownExample | src/Json/JsonNodeConverter.cs:112-116 | `[1, <unknown>]` logs the warning, then throws a null-reference exception instead of skipping the element |
| ConversionProperties.OutOfRangeExample | src/Json/JsonNodeConverter.cs:99-102 | `{"n": 2147483648}` throws an overflow exception; `{"n": 9223372036854775808}` throws an invalid-cast exception |
| ConversionProperties.ConvertedRoot | src/Json/JsonNodeConverter.cs:85-134 | a converted root has an empty key and refers back to its token. String, Boolean, Float, Integer and Null tokens become String, Boolean, Number, Integer and Null nodes with the token's payload. Array and Object tokens become Array and Object nodes |
| ConversionProperties.ConvertScalar | src/Json/JsonNodeConverter.cs:87-106 | a scalar token converts exactly when it is not an integer outside 32 bits, and never logs |
| ConversionProperties.ElementsShape | src/Json/JsonNodeConverter.cs:109-119 | after n fault-free children the list has n elements; element i has key `i.ToString()` and is child i's conversion |
| ConversionProperties.ConvertArray | src/Json/JsonNodeConverter.cs:107-122 | an array token with n children gives an Array node with exactly n elements in child order. Element i has key `i.ToString()`, refers back to child i and is child i's conversion |
| ConversionProperties.LastIndex | src/Json/JsonNodeConverter.cs:127-131 | the position of the last property with a given name, or -1 when none has it |
| ConversionProperties.FirstOccurrences | src/Json/JsonNodeConverter.cs:125-131 | the distinct property names: no repeats, and a name is present exactly when some property has it |
| ConversionProperties.FirstIndex | src/Json/JsonNodeConverter.cs:127-131 | the position of a property with a given name, or -1 |
| ConversionProperties.FirstIndexIsFirst | src/Json/JsonNodeConverter.cs:127-131 | no property with the name comes before `FirstIndex`, so it is the first such position |
| ConversionProperties.FirstOccurrencesOrder | src/Json/JsonNodeConverter.cs:125-131 | the dictionary's names come in order of first appearance: every name occurs, and an earlier name first occurs before a later one |
| ConversionProperties.FirstOccurrencesPair | src/Json/JsonNodeConverter.cs:125-131 | the same order, for one pair of names |
| ConversionProperties.FirstIndexKept | src/Json/JsonNodeConverter.cs:129 | assigning one more property leaves the first position of every name already in the dictionary unchanged |
| ConversionProperties.FirstIndexNew | src/Json/JsonNodeConverter.cs:129 | a property whose name is not yet in the dictionary is where that name first occurs |
| ConversionProperties.MembersShape | src/Json/JsonNodeConverter.cs:125-131 | after n fault-free properties the dictionary's names are their first occurrences. Each member's key is its name and its node is the conversion of the last property with that name |
| ConversionProperties.ConvertObject | src/Json/JsonNodeConverter.cs:123-134 | an object token gives an Object node with one member per distinct name, in the order `FirstOccurrences` gives, which `FirstOccurrencesOrder` shows is the order of first appearance. Each member's key equals its name. Its node is the conversion of the LAST property with that name and refers back to that property's value |
| ConversionProperties.DuplicateNameExample | src/Json/JsonNodeConverter.cs:127-131 | `{"a": 1, "b": true, "a": 2}` gives members `a`, `b` in that order, with `a` holding 2 |
| ConversionProperties.ConvertWellFormed | src/Json/JsonNodeConverter.cs:107-134 | every tree `Convert` returns is well formed: elements keyed by index, members keyed by name, no repeated names |
| ConversionProperties.FirstOccurrencesOfUnique | src/Json/JsonNodeConverter.cs:125-131 | without repeated names, the dictionary's names are the property names in order |
| Nodes.IndexOf | src/Json/JsonNodeConverter.cs:129 | the dictionary lookup gives -1 or a slot of the member list |
| Nodes.IndexOfSemantics | src/Json/JsonNodeConverter.cs:129 | the dictionary lookup finds a member exactly when the name is present, and finds the first slot with that name (the only one under `DistinctNames`) |
| Nodes.Put | src/Json/JsonNodeConverter.cs:129 | assigning by name adds at most one member, and afterwards the dictionary holds the name with the assigned node |
| Nodes.PutSemantics | src/Json/JsonNodeConverter.cs:129 | assigning by name keeps the names in order and appends the name only when it is new. When the names are distinct (`DistinctNames`), they stay distinct, the member with that name takes the new node and no other member changes |
| Nodes.DecimalString | src/Json/JsonNodeConverter.cs:115 | `i.ToString()` for a non-negative index is a non-empty string of digits without a leading zero |
| Nodes.DecimalRoundTrip | src/Json/JsonNodeConverter.cs:115 | an array key parses back to its index |
| Nodes.DecimalStringInjective | src/Json/JsonNodeConverter.cs:115 | different indices get different keys |
| Logging.Logger.Log | src/Json/JsonNodeConverter.cs:137 | logging appends exactly one entry with the given level and message |
| Writer.JsonWriter.Write | src/Json/JsonNodeConverter.cs:20-67 | each writer call appends exactly that call to the writer's record |
| Writer.ReadValue | src/Json/JsonNodeConverter.cs:79 | reading a token consumes at least one writer call |
| Serialization.WriteJson | src/Json/JsonNodeConverter.cs:14-71 | the calls made on the writer are exactly `Events(value)` appended to the calls made before |
| Serialization.WriteElements | src/Json/JsonNodeConverter.cs:27-30 | writes each element's calls in list order |
| Serialization.WriteMembers | src/Json/JsonNodeConverter.cs:55-59 | writes each member's name and then its value's calls, in enumeration order |
| Serialization.ElementEventsAppend | src/Json/JsonNodeConverter.cs:27-30 | one more element appends exactly its own calls |
| Serialization.MemberEventsAppend | src/Json/JsonNodeConverter.cs:55-59 | one more member appends exactly its name and its value's calls |
| Serialization.ReadJson | src/Json/JsonNodeConverter.cs:73-81 | a reader holding no complete token throws a reader exception and logs nothing; otherwise the result and the log are those of converting the token read |
| Serialization.ReadBack | src/Json/JsonNodeConverter.cs:14-71 | the calls `WriteJson` makes are well nested and form exactly one value: reading them back yields the token the node describes and stops right after them |
| Serialization.ReadElementsBack | src/Json/JsonNodeConverter.cs:23-35 | an array's element calls followed by the end of the array read back as the element tokens, in order |
| Serialization.ReadPropertiesBack | src/Json/JsonNodeConverter.cs:51-64 | an object's member calls followed by the end of the object read back as the properties, in order |
| Serialization.ToTokenIgnoresKey | src/Json/JsonNodeConverter.cs:14-71 | what is written for a node does not depend on the node's own key |
| Serialization.ToTokenSupported | src/Json/JsonNodeConverter.cs:46-49 | every token a node tree describes converts without a fault, since its integers fit in 32 bits |
| Serialization.ToTokenUniqueNames | src/Json/JsonNodeConverter.cs:51-64 | a well-formed tree writes objects without repeated names |
| Serialization.ToTokenInjective | src/Json/JsonNodeConverter.cs:14-71 | two well-formed trees with the same root key that write the same value are equal up to back-references |
| Serialization.TokenRoundTrip | src/Json/JsonNodeConverter.cs:83-134 | a fault-free token tree without repeated names converts, and the result describes that same token |
| Serialization.ArrayRoundTrip | src/Json/JsonNodeConverter.cs:107-122 | the array case of the token round trip |
| Serialization.ObjectRoundTrip | src/Json/JsonNodeConverter.cs:123-134 | the object case of the token round trip |
| Serialization.MembersRoundTrip | src/Json/JsonNodeConverter.cs:125-131 | without repeated names, the members describe the properties one for one, in order |
| Serialization.MembersInOrder | src/Json/JsonNodeConverter.cs:125-131 | without repeated names, member k comes from property k |
| Serialization.MemberRoundTrip | src/Json/JsonNodeConverter.cs:129-130 | one member describes the property it was converted from |
| Serialization.NodeRoundTrip | src/Json/JsonNodeConverter.cs:14-134 | converting the token a well-formed tree describes logs nothing and gives the tree back with the same kinds, payloads, keys and order (Integer stays Integer), and an empty root key |
| Serialization.WriteThenRead | src/Json/JsonNodeConverter.cs:14-81 | `ReadJson` on the calls `WriteJson` made for a well-formed tree returns that tree (up to back-references and the root key) and logs nothing |
| Serialization.ConvertThenWrite | src/Json/JsonNodeConverter.cs:14-134 | writing what `Convert` built from a fault-free token tree without repeated names reads back as that token |

## Left out

- The editor's user interface (src/GUI: the ImGui renderer, the file dialog and the menu bar) is not part of this model. It is graphics, windowing and file-system plumbing over libraries not shown.
- Number payloads are opaque 64-bit patterns. The double-to-float narrowing of `j.Value<float>()` and `AsFloat` is not modelled. Number nodes therefore round trip unchanged. In the program this holds when the writer calls are read back as tokens, as the model does, because a float widened to a double narrows back exactly. It does not hold through JSON text, as the next line says.
- Json.NET's text parser and its JSON text format are not modelled. `Writer.ReadValue` stands for `JToken.ReadFrom` and reads from the sequence of writer calls, not from text. A reader error is one exception value. A stream that starts with a property name is a reader error here. `JToken.ReadFrom` instead loads a `JProperty`, which `Convert` reports as `Unknown Token type Property` before returning null. The reader here keeps every property of an object, repeats included, where `JToken.ReadFrom` replaces an earlier property of the same name in place. `ReadJson` still builds the same node tree either way (first slot, last value, and writer calls hold no fault); only the root node's back-reference to its token differs. Through JSON text, more changes than the model shows. A NaN or infinite Number is written as a string and comes back as a String node. A String that looks like an ISO date is read back as a Date token, which `Convert` reports as `Unknown Token type Date`.
- The `Logger` sink and the `JsonNode` class are not shown. The logger is a record of entries. A node is a value holding kind, payload, key and source token. The unused `objectType`, `existingValue`, `hasExistingValue` and `serializer` parameters are dropped.
- Aliasing is not modelled. `Convert` builds fresh nodes and sets their `Key` field in place; the model builds the node with its key already set. No other reference to those nodes exists while that happens.
- `Convert` gives the root node an empty key here. The source never sets the root's `Key`, so it has the `JsonNode` constructor's default, and that constructor is not shown.
- Serialization.WriteJson: a node whose `Type` is none of the seven kinds writes nothing in the source; the model's `Value` type has exactly the seven kinds, so that case cannot arise.
- Serialization.TokenRoundTrip: in the program this holds only when every Float token's value is exactly a `float`. The model keeps the token's 64-bit pattern, while `Convert` narrows it with `j.Value<float>()` (src/Json/JsonNodeConverter.cs:97), so a value such as 3.141592653589793 comes back as 3.1415927. The same applies to Serialization.ArrayRoundTrip, Serialization.ObjectRoundTrip, Serialization.MembersRoundTrip and Serialization.MemberRoundTrip.
- Serialization.ConvertThenWrite: for the same reason, in the program the calls read back as the original token only when every Float token's value is exactly a `float`.
- Serialization.NodeRoundTrip: compares trees up to the source-token back-reference (`Erase`), since a converted tree refers to the new tokens rather than to the ones the original tree came from.
