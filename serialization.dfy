/**
 * `JsonNodeConverter.WriteJson` (node tree to writer calls) and
 * `JsonNodeConverter.ReadJson` (read a token, then convert it), with the
 * round trips between writing, reading and converting.
 */
module Serialization {
  import opened Optional
  import opened Tokens
  import opened Nodes
  import opened Logging
  import opened Conversion
  import opened ConversionProperties
  import opened Writer

  // ---------------------------------------------------------------------------
  // Specification of WriteJson

  /** The token a node tree describes: its kinds, payloads and child order, without keys or back-references. */
  function ToToken(n: Node): Token
    decreases n
  {
    match n.value
    case Null => NullToken
    case Boolean(b) => BooleanToken(b)
    case Number(f) => FloatToken(f)
    case Integer(i) => IntegerToken(i as int)
    case String(s) => StringToken(s)
    case Array(es) => ArrayToken(ElementTokens(es))
    case Object(ms) => ObjectToken(MemberProperties(ms))
  }

  function ElementTokens(es: seq<Node>): seq<Token>
    decreases es
  {
    seq(|es|, i requires 0 <= i < |es| => ToToken(es[i]))
  }

  function MemberProperties(ms: seq<Member>): seq<Property>
    decreases ms
  {
    seq(|ms|, k requires 0 <= k < |ms| => Property(ms[k].name, ToToken(ms[k].node)))
  }

  /** The token a node describes does not depend on the node's key. */
  lemma ToTokenIgnoresKey(n: Node, key: string)
    ensures ToToken(n.(key := key)) == ToToken(n)
  {
  }

  /** The writer calls `WriteJson` makes for a node, in order. */
  function Events(n: Node): seq<WriterEvent>
    decreases n
  {
    match n.value
    case Null => [NullValue]
    case Array(es) => [StartArray] + ElementEvents(es) + [EndArray]
    case Boolean(b) => [BooleanValue(b)]
    case Number(f) => [FloatValue(f)]
    case Integer(i) => [IntegerValue(i)]
    case Object(ms) => [StartObject] + MemberEvents(ms) + [EndObject]
    case String(s) => [StringValue(s)]
  }

  function ElementEvents(es: seq<Node>): seq<WriterEvent>
    decreases es
  {
    if es == [] then [] else Events(es[0]) + ElementEvents(es[1..])
  }

  function MemberEvents(ms: seq<Member>): seq<WriterEvent>
    decreases ms
  {
    if ms == [] then [] else [PropertyName(ms[0].name)] + Events(ms[0].node) + MemberEvents(ms[1..])
  }

  lemma {:induction false} ElementEventsAppend(es: seq<Node>, e: Node)
    ensures ElementEvents(es + [e]) == ElementEvents(es) + Events(e)
  {
    if es == [] {
      assert es + [e] == [e] && [e][1..] == [];
    } else {
      var head, tail := Events(es[0]), ElementEvents(es[1..]);
      ElementEventsAppend(es[1..], e);
      assert (es + [e])[0] == es[0] && (es + [e])[1..] == es[1..] + [e];
      assert ElementEvents(es + [e]) == head + (tail + Events(e));
      assert head + (tail + Events(e)) == (head + tail) + Events(e);
    }
  }

  lemma {:induction false} MemberEventsAppend(ms: seq<Member>, m: Member)
    ensures MemberEvents(ms + [m]) == MemberEvents(ms) + ([PropertyName(m.name)] + Events(m.node))
  {
    if ms == [] {
      assert ms + [m] == [m] && [m][1..] == [];
    } else {
      var head, tail := [PropertyName(ms[0].name)] + Events(ms[0].node), MemberEvents(ms[1..]);
      var last := [PropertyName(m.name)] + Events(m.node);
      MemberEventsAppend(ms[1..], m);
      assert (ms + [m])[0] == ms[0] && (ms + [m])[1..] == ms[1..] + [m];
      assert MemberEvents(ms + [m]) == head + (tail + last);
      assert head + (tail + last) == (head + tail) + last;
    }
  }

  // ---------------------------------------------------------------------------
  // The procedures

  method WriteJson(writer: JsonWriter, value: Node)
    modifies writer
    ensures writer.events == old(writer.events) + Events(value)
    decreases value
  {
    match value.value {
      case Null =>
        writer.Write(NullValue);
      case Array(es) =>
        writer.Write(StartArray);
        WriteElements(writer, es);
        writer.Write(EndArray);
      case Boolean(b) =>
        writer.Write(BooleanValue(b));
      case Number(f) =>
        writer.Write(FloatValue(f));
      case Integer(i) =>
        writer.Write(IntegerValue(i));
      case Object(ms) =>
        writer.Write(StartObject);
        WriteMembers(writer, ms);
        writer.Write(EndObject);
      case String(s) =>
        writer.Write(StringValue(s));
    }
  }

  /** The array case of `WriteJson`: each element written in order. */
  method WriteElements(writer: JsonWriter, es: seq<Node>)
    modifies writer
    ensures writer.events == old(writer.events) + ElementEvents(es)
    decreases es
  {
    for i := 0 to |es|
      invariant writer.events == old(writer.events) + ElementEvents(es[..i])
    {
      WriteJson(writer, es[i]);
      ElementEventsAppend(es[..i], es[i]);
      assert es[..i + 1] == es[..i] + [es[i]];
    }
    assert es[..|es|] == es;
  }

  /** The object case of `WriteJson`: each member's name, then its value, in order. */
  method WriteMembers(writer: JsonWriter, ms: seq<Member>)
    modifies writer
    ensures writer.events == old(writer.events) + MemberEvents(ms)
    decreases ms
  {
    for k := 0 to |ms|
      invariant writer.events == old(writer.events) + MemberEvents(ms[..k])
    {
      writer.Write(PropertyName(ms[k].name));
      WriteJson(writer, ms[k].node);
      MemberEventsAppend(ms[..k], ms[k]);
      assert ms[..k + 1] == ms[..k] + [ms[k]];
    }
    assert ms[..|ms|] == ms;
  }

  /** `ReadJson`: read one token from the reader, then convert it. */
  function ReadRun(evs: seq<WriterEvent>): Run<Option<Node>>
  {
    match ReadValue(evs)
    case None => Run(Threw(ReaderError), [])
    case Some((t, _)) => ConvertRun(t)
  }

  method ReadJson(reader: seq<WriterEvent>, log: Logger) returns (r: Outcome<Option<Node>>)
    modifies log
    ensures r == ReadRun(reader).outcome
    ensures log.entries == old(log.entries) + ReadRun(reader).log
  {
    var read := ReadValue(reader);
    match read {
      case None =>
        r := Threw(ReaderError);
      case Some((token, _)) =>
        r := Convert(token, log);
    }
  }

  // ---------------------------------------------------------------------------
  // Writing, then reading back

  /**
   * The calls `WriteJson` makes for a node form exactly one complete, well
   * nested value: reading them back yields the node's token and stops right
   * after the last call, whatever follows.
   */
  lemma {:induction false} ReadBack(n: Node, rest: seq<WriterEvent>)
    ensures ReadValue(Events(n) + rest) == Some((ToToken(n), rest))
    decreases n
  {
    match n.value
    case Array(es) =>
      assert Events(n) + rest == [StartArray] + (ElementEvents(es) + [EndArray] + rest);
      ReadElementsBack(es, [], rest);
      assert [] + ElementTokens(es) == ElementTokens(es);
    case Object(ms) =>
      assert Events(n) + rest == [StartObject] + (MemberEvents(ms) + [EndObject] + rest);
      ReadPropertiesBack(ms, [], rest);
      assert [] + MemberProperties(ms) == MemberProperties(ms);
    case _ =>
      assert (Events(n) + rest)[1..] == rest;
  }

  lemma {:induction false} ReadElementsBack(es: seq<Node>, acc: seq<Token>, rest: seq<WriterEvent>)
    ensures ReadElements(ElementEvents(es) + [EndArray] + rest, acc) == Some((ArrayToken(acc + ElementTokens(es)), rest))
    decreases es
  {
    var evs := ElementEvents(es) + [EndArray] + rest;
    if es == [] {
      assert evs == [EndArray] + rest;
      assert acc + ElementTokens(es) == acc;
    } else {
      var tail := ElementEvents(es[1..]) + [EndArray] + rest;
      assert evs == Events(es[0]) + tail;
      ReadBack(es[0], tail);
      assert evs[0] == Events(es[0])[0] != EndArray;
      ReadElementsBack(es[1..], acc + [ToToken(es[0])], rest);
      assert ElementTokens(es) == [ToToken(es[0])] + ElementTokens(es[1..]);
      assert acc + [ToToken(es[0])] + ElementTokens(es[1..]) == acc + ElementTokens(es);
    }
  }

  lemma {:induction false} ReadPropertiesBack(ms: seq<Member>, acc: seq<Property>, rest: seq<WriterEvent>)
    ensures ReadProperties(MemberEvents(ms) + [EndObject] + rest, acc) == Some((ObjectToken(acc + MemberProperties(ms)), rest))
    decreases ms
  {
    var evs := MemberEvents(ms) + [EndObject] + rest;
    if ms == [] {
      assert evs == [EndObject] + rest;
      assert acc + MemberProperties(ms) == acc;
    } else {
      var tail := MemberEvents(ms[1..]) + [EndObject] + rest;
      assert evs == [PropertyName(ms[0].name)] + (Events(ms[0].node) + tail);
      ReadBack(ms[0].node, tail);
      assert evs[1..] == Events(ms[0].node) + tail;
      var p := Property(ms[0].name, ToToken(ms[0].node));
      ReadPropertiesBack(ms[1..], acc + [p], rest);
      assert MemberProperties(ms) == [p] + MemberProperties(ms[1..]);
      assert acc + [p] + MemberProperties(ms[1..]) == acc + MemberProperties(ms);
    }
  }

  // ---------------------------------------------------------------------------
  // Converting, then writing back; writing, then converting back

  /** Every token a node tree describes converts: its integers fit in 32 bits and it has no unknown type. */
  lemma {:induction false} ToTokenSupported(n: Node)
    ensures Supported(ToToken(n))
    decreases n
  {
    match n.value
    case Array(es) =>
      var ts := ElementTokens(es);
      forall i | 0 <= i < |ts|
        ensures Supported(ts[i])
      {
        ToTokenSupported(es[i]);
      }
      ChildFaultsEmpty(ts, |ts|);
    case Object(ms) =>
      var ps := MemberProperties(ms);
      forall k | 0 <= k < |ps|
        ensures Supported(ps[k].value)
      {
        ToTokenSupported(ms[k].node);
      }
      PropertyFaultsEmpty(ps, |ps|);
    case _ =>
  }

  /** A well-formed tree describes a token whose objects never repeat a name. */
  lemma {:induction false} ToTokenUniqueNames(n: Node)
    requires WellFormed(n)
    ensures UniqueNames(ToToken(n))
    decreases n
  {
    match n.value
    case Array(es) =>
      forall i | 0 <= i < |es|
        ensures UniqueNames(ElementTokens(es)[i])
      {
        ToTokenUniqueNames(es[i]);
      }
    case Object(ms) =>
      var ps := MemberProperties(ms);
      forall k | 0 <= k < |ms|
        ensures UniqueNames(ps[k].value)
      {
        ToTokenUniqueNames(ms[k].node);
      }
    case _ =>
  }

  /**
   * Two well-formed trees with the same root key that describe the same token
   * are the same tree, up to their back-references.
   */
  lemma {:induction false} ToTokenInjective(a: Node, b: Node)
    requires WellFormed(a) && WellFormed(b)
    requires a.key == b.key
    requires ToToken(a) == ToToken(b)
    ensures Erase(a) == Erase(b)
    decreases a
  {
    match a.value
    case Array(ea) =>
      assert b.value.Array?;
      var eb := b.value.elements;
      assert ElementTokens(ea) == ElementTokens(eb);
      forall i | 0 <= i < |ea|
        ensures Erase(ea[i]) == Erase(eb[i])
      {
        assert ElementTokens(ea)[i] == ElementTokens(eb)[i];
        ToTokenInjective(ea[i], eb[i]);
      }
      assert Erase(a).value.elements == Erase(b).value.elements;
    case Object(ma) =>
      assert b.value.Object?;
      var mb := b.value.members;
      assert MemberProperties(ma) == MemberProperties(mb);
      forall k | 0 <= k < |ma|
        ensures ma[k].name == mb[k].name && Erase(ma[k].node) == Erase(mb[k].node)
      {
        assert MemberProperties(ma)[k] == MemberProperties(mb)[k];
        ToTokenInjective(ma[k].node, mb[k].node);
      }
      assert Erase(a).value.members == Erase(b).value.members;
    case _ =>
  }

  /**
   * A token tree without faults and without repeated property names converts
   * to a node tree that describes that same token again.
   */
  lemma {:induction false} TokenRoundTrip(t: Token)
    requires Supported(t) && UniqueNames(t)
    ensures Converted(t).Some? && ToToken(Converted(t).value) == t
    decreases t, 1
  {
    match t
    case ArrayToken(_) =>
      ArrayRoundTrip(t);
    case ObjectToken(_) =>
      ObjectRoundTrip(t);
    case _ =>
      ConvertFaults(t);
      ConvertedRoot(t);
  }

  lemma {:induction false} ArrayRoundTrip(t: Token)
    requires t.ArrayToken? && Supported(t) && UniqueNames(t)
    ensures Converted(t).Some? && ToToken(Converted(t).value) == t
    decreases t, 0
  {
    var cs := t.children;
    ConvertArray(t);
    ChildFaultsEmpty(cs, |cs|);
    var es := Converted(t).value.value.elements;
    forall i | 0 <= i < |es|
      ensures ToToken(es[i]) == cs[i]
    {
      TokenRoundTrip(cs[i]);
      ToTokenIgnoresKey(es[i], "");
    }
    assert ElementTokens(es) == cs;
  }

  lemma {:induction false} ObjectRoundTrip(t: Token)
    requires t.ObjectToken? && Supported(t) && UniqueNames(t)
    ensures Converted(t).Some? && ToToken(Converted(t).value) == t
    decreases t, 0
  {
    var ps := t.properties;
    assert Converted(t).Some? && Converted(t).value.value.Object?
      && MemberProperties(Converted(t).value.value.members) == ps
    by {
      ConvertObject(t);
      PropertyFaultsEmpty(ps, |ps|);
      MembersRoundTrip(ps, Converted(t).value.value.members);
    }
  }

  lemma {:induction false} MembersRoundTrip(ps: seq<Property>, ms: seq<Member>)
    requires forall i, j :: 0 <= i < j < |ps| ==> ps[i].name != ps[j].name
    requires forall i :: 0 <= i < |ps| ==> Supported(ps[i].value) && UniqueNames(ps[i].value)
    requires Names(ms) == FirstOccurrences(ps, |ps|)
    requires forall k :: 0 <= k < |ms| ==>
      var last := LastIndex(ps, |ps|, ms[k].name);
      0 <= last && Converted(ps[last].value) == Some(ms[k].node.(key := ""))
    ensures MemberProperties(ms) == ps
    decreases ps
  {
    MembersInOrder(ps, ms);
    forall k | 0 <= k < |ms|
      ensures MemberProperties(ms)[k] == ps[k]
    {
      MemberRoundTrip(ps, k, ms[k]);
    }
  }

  /** Without repeated names, the members come out one per property, in order. */
  lemma {:induction false} MembersInOrder(ps: seq<Property>, ms: seq<Member>)
    requires forall i, j :: 0 <= i < j < |ps| ==> ps[i].name != ps[j].name
    requires Names(ms) == FirstOccurrences(ps, |ps|)
    ensures |ms| == |ps|
    ensures forall k :: 0 <= k < |ms| ==> ms[k].name == ps[k].name && LastIndex(ps, |ps|, ms[k].name) == k
  {
    FirstOccurrencesOfUnique(ps, |ps|);
    forall k | 0 <= k < |ms|
      ensures ms[k].name == ps[k].name && LastIndex(ps, |ps|, ms[k].name) == k
    {
      assert ms[k].name == Names(ms)[k];
    }
  }

  lemma {:induction false} MemberRoundTrip(ps: seq<Property>, k: nat, m: Member)
    requires k < |ps| && m.name == ps[k].name
    requires Supported(ps[k].value) && UniqueNames(ps[k].value)
    requires Converted(ps[k].value) == Some(m.node.(key := ""))
    ensures Property(m.name, ToToken(m.node)) == ps[k]
    decreases ps[k].value, 2
  {
    TokenRoundTrip(ps[k].value);
    ToTokenIgnoresKey(m.node, "");
  }

  /**
   * Converting the token a well-formed tree describes gives the tree back, with
   * the same kinds, payloads, keys and order (Integer stays Integer, Number
   * stays Number) and an empty root key, without logging anything.
   */
  lemma NodeRoundTrip(n: Node)
    requires WellFormed(n)
    ensures ConvertRun(ToToken(n)).log == []
    ensures Converted(ToToken(n)).Some?
    ensures Erase(Converted(ToToken(n)).value) == Erase(n.(key := ""))
  {
    var t := ToToken(n);
    ToTokenSupported(n);
    ToTokenUniqueNames(n);
    TokenRoundTrip(t);
    ConvertFaults(t);
    ConvertWellFormed(t);
    ConvertedRoot(t);
    var m := Converted(t).value;
    assert ToToken(n.(key := "")) == t && WellFormed(n.(key := ""));
    ToTokenInjective(m, n.(key := ""));
  }

  /**
   * `ReadJson` applied to what `WriteJson` wrote for a well-formed tree returns
   * that tree again, up to back-references and the root key, and logs nothing.
   */
  lemma WriteThenRead(n: Node, rest: seq<WriterEvent>)
    requires WellFormed(n)
    ensures ReadRun(Events(n) + rest).log == []
    ensures ReadRun(Events(n) + rest).outcome.Returned?
    ensures ReadRun(Events(n) + rest).outcome.value.Some?
    ensures Erase(ReadRun(Events(n) + rest).outcome.value.value) == Erase(n.(key := ""))
  {
    ReadBack(n, rest);
    NodeRoundTrip(n);
  }

  /**
   * `WriteJson` applied to what `Convert` built from a fault-free token tree
   * without repeated names writes calls that read back as that token.
   */
  lemma ConvertThenWrite(t: Token)
    requires Supported(t) && UniqueNames(t)
    ensures Converted(t).Some?
    ensures ReadValue(Events(Converted(t).value)) == Some((t, []))
  {
    TokenRoundTrip(t);
    var evs := Events(Converted(t).value);
    ReadBack(Converted(t).value, []);
    assert evs + [] == evs;
  }

}
