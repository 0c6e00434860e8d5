/**
 * What `Convert` promises, proved about its specification in `Conversion`:
 * how each token type maps to a node, how array and object children are
 * keyed and ordered, which value a repeated property name keeps, and how an
 * unknown token type or an out-of-range integer ends the conversion.
 */
module ConversionProperties {
  import opened Optional
  import opened Tokens
  import opened Nodes
  import opened Logging
  import opened Conversion

  // ---------------------------------------------------------------------------
  // Faults: an independent description of when and how conversion fails

  /** Something in a token tree that `Convert` cannot turn into a node. */
  datatype Fault = UnknownType(typeName: string) | IntegerOutOfRange(integer: int)

  /** Every fault in the tree, in the order `Convert` visits the tokens. */
  function Faults(t: Token): seq<Fault>
    decreases t
  {
    match t
    case IntegerToken(i) => if IsInt32(i) then [] else [IntegerOutOfRange(i)]
    case ArrayToken(cs) => ChildFaults(cs, |cs|)
    case ObjectToken(ps) => PropertyFaults(ps, |ps|)
    case OtherToken(name) => [UnknownType(name)]
    case _ => []
  }

  function ChildFaults(cs: seq<Token>, n: nat): seq<Fault>
    requires n <= |cs|
    decreases cs, n
  {
    if n == 0 then [] else ChildFaults(cs, n - 1) + Faults(cs[n - 1])
  }

  function PropertyFaults(ps: seq<Property>, n: nat): seq<Fault>
    requires n <= |ps|
    decreases ps, n
  {
    if n == 0 then [] else PropertyFaults(ps, n - 1) + Faults(ps[n - 1].value)
  }

  /** A tree `Convert` turns into a node without logging or throwing. */
  predicate Supported(t: Token)
  {
    Faults(t) == []
  }

  /** The exception a fault below the root ends the conversion with. */
  function ThrownBy(f: Fault): Exception
  {
    match f
    case UnknownType(_) => NullReference
    case IntegerOutOfRange(i) => if IsInt64(i) then Overflow else InvalidCast
  }

  /** The log entries a fault leaves behind. */
  function Logged(f: Fault): seq<LogEntry>
  {
    match f
    case UnknownType(name) => [Warning(name)]
    case IntegerOutOfRange(_) => []
  }

  lemma {:induction false} ChildFaultsEmpty(cs: seq<Token>, n: nat)
    requires n <= |cs|
    ensures ChildFaults(cs, n) == [] <==> forall i :: 0 <= i < n ==> Supported(cs[i])
  {
    if n > 0 {
      ChildFaultsEmpty(cs, n - 1);
    }
  }

  lemma {:induction false} PropertyFaultsEmpty(ps: seq<Property>, n: nat)
    requires n <= |ps|
    ensures PropertyFaults(ps, n) == [] <==> forall i :: 0 <= i < n ==> Supported(ps[i].value)
  {
    if n > 0 {
      PropertyFaultsEmpty(ps, n - 1);
    }
  }

  /** What `ConvertFaults` states about one token, as a predicate the loop lemmas can take as a premise. */
  predicate FaultsDecide(j: Token)
  {
    var run := ConvertRun(j);
    if Supported(j) then
      run.log == [] && run.outcome.Returned? && run.outcome.value.Some?
    else
      && run.log == Logged(Faults(j)[0])
      && run.outcome == (if j.OtherToken? then Returned(None) else Threw(ThrownBy(Faults(j)[0])))
  }

  /**
   * Conversion succeeds, silently, exactly when the tree has no fault.
   * Otherwise the first fault in visiting order decides everything: an
   * unknown type logs one warning naming it, and yields null at the root or a
   * null-reference exception below it; an integer outside 32 bits throws,
   * logging nothing, an overflow exception when it fits 64 bits and an
   * invalid-cast exception when it is a `BigInteger`.
   */
  lemma {:induction false} ConvertFaults(j: Token)
    ensures FaultsDecide(j)
    decreases j
  {
    match j
    case ArrayToken(cs) => ElementsFaults(cs, |cs|);
    case ObjectToken(ps) => MembersFaults(ps, |ps|);
    case _ =>
  }

  /** What the first `n` iterations of a loop leave behind, decided by the faults among their tokens. */
  predicate LoopFaultsDecide<T>(run: Run<T>, fs: seq<Fault>)
  {
    if fs == [] then run.log == [] && run.outcome.Returned?
    else run == Run(Threw(ThrownBy(fs[0])), Logged(fs[0]))
  }

  lemma {:induction false} ElementsFaults(cs: seq<Token>, n: nat)
    requires n <= |cs|
    ensures LoopFaultsDecide(ConvertElements(cs, n), ChildFaults(cs, n))
    decreases cs, n
  {
    if n > 0 {
      ElementsFaults(cs, n - 1);
      ConvertFaults(cs[n - 1]);
      ElementStep(cs, n);
    }
  }

  lemma ElementStep(cs: seq<Token>, n: nat)
    requires 0 < n <= |cs|
    requires LoopFaultsDecide(ConvertElements(cs, n - 1), ChildFaults(cs, n - 1))
    requires FaultsDecide(cs[n - 1])
    ensures LoopFaultsDecide(ConvertElements(cs, n), ChildFaults(cs, n))
  {
    var prev := ConvertElements(cs, n - 1);
    if ChildFaults(cs, n - 1) != [] {
      assert ChildFaults(cs, n)[0] == ChildFaults(cs, n - 1)[0];
    } else {
      var run := ConvertRun(cs[n - 1]);
      assert ConvertElements(cs, n).log == prev.log + run.log;
      assert ChildFaults(cs, n) == Faults(cs[n - 1]);
    }
  }

  lemma {:induction false} MembersFaults(ps: seq<Property>, n: nat)
    requires n <= |ps|
    ensures LoopFaultsDecide(ConvertMembers(ps, n), PropertyFaults(ps, n))
    decreases ps, n
  {
    if n > 0 {
      MembersFaults(ps, n - 1);
      ConvertFaults(ps[n - 1].value);
      MemberStep(ps, n);
    }
  }

  lemma MemberStep(ps: seq<Property>, n: nat)
    requires 0 < n <= |ps|
    requires LoopFaultsDecide(ConvertMembers(ps, n - 1), PropertyFaults(ps, n - 1))
    requires FaultsDecide(ps[n - 1].value)
    ensures LoopFaultsDecide(ConvertMembers(ps, n), PropertyFaults(ps, n))
  {
  }

  /** `Convert` never logs more than one warning. */
  lemma AtMostOneWarning(j: Token)
    ensures |ConvertRun(j).log| <= 1
  {
    ConvertFaults(j);
  }

  /** An unknown token type at the root: no node, one warning naming the type. */
  lemma UnknownRoot(name: string)
    ensures ConvertRun(OtherToken(name)) == Run(Returned(None), [LogEntry(Warn, "Unknown Token type " + name)])
  {
  }

  // ---------------------------------------------------------------------------
  // The node built for each token type

  /**
   * The root of a converted tree: its kind and payload follow the token's type,
   * it has an empty key, and it refers back to the token it was built from.
   */
  lemma ConvertedRoot(j: Token)
    requires Converted(j).Some?
    ensures var m := Converted(j).value;
      && m.key == ""
      && m.source == Some(j)
      && match j
         case StringToken(s) => m.value == String(s)
         case BooleanToken(b) => m.value == Boolean(b)
         case FloatToken(f) => m.value == Number(f)
         case IntegerToken(i) => m.value.Integer? && m.value.i as int == i
         case NullToken => m.value == Null
         case ArrayToken(_) => m.value.Array?
         case ObjectToken(_) => m.value.Object?
         case OtherToken(_) => false
  {
  }

  /** A scalar token always converts, unless it is an integer outside 32 bits. */
  lemma ConvertScalar(j: Token)
    requires !j.ArrayToken? && !j.ObjectToken? && !j.OtherToken?
    ensures Converted(j).Some? <==> (j.IntegerToken? ==> IsInt32(j.integer))
    ensures ConvertRun(j).log == []
  {
  }

  lemma {:induction false} ElementsShape(cs: seq<Token>, n: nat)
    requires n <= |cs|
    requires ChildFaults(cs, n) == []
    ensures var run := ConvertElements(cs, n);
      && run.outcome.Returned?
      && |run.outcome.value| == n
      && forall i :: 0 <= i < n ==>
           && run.outcome.value[i].key == DecimalString(i)
           && Converted(cs[i]) == Some(run.outcome.value[i].(key := ""))
  {
    if n > 0 {
      assert ChildFaults(cs, n - 1) == [] && Faults(cs[n - 1]) == [] by {
        assert |ChildFaults(cs, n)| == |ChildFaults(cs, n - 1)| + |Faults(cs[n - 1])|;
      }
      ElementsShape(cs, n - 1);
      ConvertFaults(cs[n - 1]);
      var prev := ConvertElements(cs, n - 1).outcome.value;
      var c := Converted(cs[n - 1]).value;
      var arr := prev + [c.(key := DecimalString(n - 1))];
      assert ConvertElements(cs, n).outcome == Returned(arr);
      forall i | 0 <= i < n
        ensures arr[i].key == DecimalString(i) && Converted(cs[i]) == Some(arr[i].(key := ""))
      {
        if i < n - 1 {
          assert arr[i] == prev[i];
        } else {
          ConvertedRoot(cs[n - 1]);
        }
      }
    }
  }

  /**
   * An array token becomes an Array node with one element per child, in the
   * children's order; element i has key `i.ToString()` and is the conversion
   * of child i, which it refers back to.
   */
  lemma ConvertArray(j: Token)
    requires j.ArrayToken? && Supported(j)
    ensures Converted(j).Some? && Converted(j).value.value.Array?
    ensures var es := Converted(j).value.value.elements;
      && |es| == |j.children|
      && forall i :: 0 <= i < |es| ==>
           && es[i].key == DecimalString(i)
           && es[i].source == Some(j.children[i])
           && Converted(j.children[i]) == Some(es[i].(key := ""))
  {
    var cs := j.children;
    ElementsShape(cs, |cs|);
    ConvertFaults(j);
    var es := Converted(j).value.value.elements;
    forall i | 0 <= i < |es|
      ensures es[i].source == Some(cs[i])
    {
      ConvertedRoot(cs[i]);
    }
  }

  // ---------------------------------------------------------------------------
  // Objects: one entry per name, at its first position, holding its last value

  /** Position of the last of the first `n` properties named `name`, or -1 when none is. */
  function LastIndex(ps: seq<Property>, n: nat, name: string): (k: int)
    requires n <= |ps|
    ensures -1 <= k < n
    ensures 0 <= k ==> ps[k].name == name
    ensures forall i :: k < i < n ==> ps[i].name != name
  {
    if n == 0 then -1
    else if ps[n - 1].name == name then n - 1
    else LastIndex(ps, n - 1, name)
  }

  /** The names among the first `n` properties, each once, in the order they first appear. */
  function FirstOccurrences(ps: seq<Property>, n: nat): (names: seq<string>)
    requires n <= |ps|
    ensures forall a, b :: 0 <= a < b < |names| ==> names[a] != names[b]
    ensures forall x :: x in names <==> 0 <= LastIndex(ps, n, x)
  {
    if n == 0 then []
    else
      var prev := FirstOccurrences(ps, n - 1);
      if ps[n - 1].name in prev then prev else prev + [ps[n - 1].name]
  }

  /** Position of the first of the first `n` properties named `name`, or -1 when none is. */
  function FirstIndex(ps: seq<Property>, n: nat, name: string): (k: int)
    requires n <= |ps|
    ensures -1 <= k < n
    ensures 0 <= k ==> ps[k].name == name
  {
    if n == 0 then -1
    else
      var k := FirstIndex(ps, n - 1, name);
      if 0 <= k then k else if ps[n - 1].name == name then n - 1 else -1
  }

  /** No property named `name` comes before `FirstIndex`. */
  lemma {:induction false} FirstIndexIsFirst(ps: seq<Property>, n: nat, name: string, i: nat)
    requires i < n <= |ps| && ps[i].name == name
    ensures 0 <= FirstIndex(ps, n, name) <= i
  {
    if i < n - 1 {
      FirstIndexIsFirst(ps, n - 1, name, i);
    }
  }

  /** The names come in the order in which each first appears among the properties. */
  lemma FirstOccurrencesOrder(ps: seq<Property>, n: nat)
    requires n <= |ps|
    ensures var names := FirstOccurrences(ps, n);
      && (forall a :: 0 <= a < |names| ==> 0 <= FirstIndex(ps, n, names[a]))
      && (forall a, b :: 0 <= a < b < |names| ==> FirstIndex(ps, n, names[a]) < FirstIndex(ps, n, names[b]))
  {
    var names := FirstOccurrences(ps, n);
    forall a, b | 0 <= a < b < |names|
      ensures FirstIndex(ps, n, names[a]) < FirstIndex(ps, n, names[b])
    {
      FirstOccurrencesPair(ps, n, a, b);
    }
    forall a | 0 <= a < |names|
      ensures 0 <= FirstIndex(ps, n, names[a])
    {
      FirstIndexIsFirst(ps, n, names[a], LastIndex(ps, n, names[a]));
    }
  }

  lemma {:induction false} FirstOccurrencesPair(ps: seq<Property>, n: nat, a: nat, b: nat)
    requires n <= |ps|
    requires a < b < |FirstOccurrences(ps, n)|
    ensures 0 <= FirstIndex(ps, n, FirstOccurrences(ps, n)[a]) < FirstIndex(ps, n, FirstOccurrences(ps, n)[b])
  {
    var m: nat := n - 1;
    var prev := FirstOccurrences(ps, m);
    var names := FirstOccurrences(ps, n);
    var x := ps[m].name;
    assert names == if x in prev then prev else prev + [x];
    assert a < |prev|;
    FirstIndexKept(ps, n, prev[a]);
    if b < |prev| {
      assert names[a] == prev[a] && names[b] == prev[b];
      FirstOccurrencesPair(ps, m, a, b);
      FirstIndexKept(ps, n, prev[b]);
    } else {
      assert names[a] == prev[a] && names[b] == x;
      FirstIndexNew(ps, n);
      assert FirstIndex(ps, n, names[b]) == m;
    }
  }

  /** A name not among the first `n - 1` properties first occurs at `n - 1`. */
  lemma FirstIndexNew(ps: seq<Property>, n: nat)
    requires 0 < n <= |ps|
    requires ps[n - 1].name !in FirstOccurrences(ps, n - 1)
    ensures FirstIndex(ps, n, ps[n - 1].name) == n - 1
  {
  }

  /** A name already among the first `n - 1` properties keeps its first position. */
  lemma FirstIndexKept(ps: seq<Property>, n: nat, name: string)
    requires 0 < n <= |ps|
    requires name in FirstOccurrences(ps, n - 1)
    ensures 0 <= FirstIndex(ps, n - 1, name) == FirstIndex(ps, n, name) < n - 1
  {
    FirstIndexIsFirst(ps, n - 1, name, LastIndex(ps, n - 1, name));
  }

  lemma {:induction false} MembersShape(ps: seq<Property>, n: nat)
    requires n <= |ps|
    requires PropertyFaults(ps, n) == []
    ensures var run := ConvertMembers(ps, n);
      && run.outcome.Returned?
      && Names(run.outcome.value) == FirstOccurrences(ps, n)
      && forall k :: 0 <= k < |run.outcome.value| ==>
           var m := run.outcome.value[k];
           && 0 <= LastIndex(ps, n, m.name)
           && m.node.key == m.name
           && Converted(ps[LastIndex(ps, n, m.name)].value) == Some(m.node.(key := ""))
  {
    if n > 0 {
      assert PropertyFaults(ps, n - 1) == [] && Faults(ps[n - 1].value) == [] by {
        assert |PropertyFaults(ps, n)| == |PropertyFaults(ps, n - 1)| + |Faults(ps[n - 1].value)|;
      }
      MembersShape(ps, n - 1);
      var obj := ConvertMembers(ps, n - 1).outcome.value;
      var p := ps[n - 1];
      ConvertFaults(p.value);
      ConvertedRoot(p.value);
      var c := Converted(p.value).value;
      var node := c.(key := p.name);
      assert DistinctNames(obj) by {
        forall a, b | 0 <= a < b < |obj|
          ensures obj[a].name != obj[b].name
        {
          assert Names(obj)[a] == obj[a].name && Names(obj)[b] == obj[b].name;
        }
      }
      PutSemantics(obj, p.name, node);
      var ms := Put(obj, p.name, node);
      assert ConvertMembers(ps, n).outcome == Returned(ms);
      forall k | 0 <= k < |ms|
        ensures 0 <= LastIndex(ps, n, ms[k].name)
        ensures ms[k].node.key == ms[k].name
        ensures Converted(ps[LastIndex(ps, n, ms[k].name)].value) == Some(ms[k].node.(key := ""))
      {
        assert Names(ms)[k] == ms[k].name;
        if k < |obj| && obj[k].name != p.name {
          assert ms[k] == obj[k];
          assert LastIndex(ps, n, obj[k].name) == LastIndex(ps, n - 1, obj[k].name);
        } else {
          assert ms[k] == Member(p.name, node);
        }
      }
    }
  }

  /**
   * An object token becomes an Object node with exactly one member per distinct
   * property name, ordered by where each name first appears (assigning an
   * existing dictionary key keeps its slot). Each member's key is its name, and
   * its node is the conversion of the LAST property with that name, which it
   * refers back to: later duplicates overwrite earlier ones.
   */
  lemma ConvertObject(j: Token)
    requires j.ObjectToken? && Supported(j)
    ensures Converted(j).Some? && Converted(j).value.value.Object?
    ensures var ps := j.properties; var ms := Converted(j).value.value.members;
      && DistinctNames(ms)
      && Names(ms) == FirstOccurrences(ps, |ps|)
      && forall k :: 0 <= k < |ms| ==>
           var last := LastIndex(ps, |ps|, ms[k].name);
           && 0 <= last
           && ms[k].node.key == ms[k].name
           && ms[k].node.source == Some(ps[last].value)
           && Converted(ps[last].value) == Some(ms[k].node.(key := ""))
  {
    var ps := j.properties;
    MembersShape(ps, |ps|);
    ConvertFaults(j);
    var ms := Converted(j).value.value.members;
    var names := FirstOccurrences(ps, |ps|);
    forall a, b | 0 <= a < b < |ms|
      ensures ms[a].name != ms[b].name
    {
      assert names[a] == ms[a].name && names[b] == ms[b].name;
    }
    forall k | 0 <= k < |ms|
      ensures ms[k].node.source == Some(ps[LastIndex(ps, |ps|, ms[k].name)].value)
    {
      ConvertedRoot(ps[LastIndex(ps, |ps|, ms[k].name)].value);
    }
  }

  /** Every tree `Convert` builds keeps the key and unique-name invariant. */
  lemma {:induction false} ConvertWellFormed(j: Token)
    requires Converted(j).Some?
    ensures WellFormed(Converted(j).value)
    decreases j
  {
    ConvertFaults(j);
    match j
    case ArrayToken(cs) =>
      ConvertArray(j);
      var es := Converted(j).value.value.elements;
      forall i | 0 <= i < |es|
        ensures WellFormed(es[i])
      {
        ConvertWellFormed(cs[i]);
        assert WellFormed(es[i].(key := ""));
      }
    case ObjectToken(ps) =>
      ConvertObject(j);
      var ms := Converted(j).value.value.members;
      forall k | 0 <= k < |ms|
        ensures WellFormed(ms[k].node)
      {
        ConvertWellFormed(ps[LastIndex(ps, |ps|, ms[k].name)].value);
        assert WellFormed(ms[k].node.(key := ""));
      }
    case _ =>
  }

  /** Without repeated names, every name first occurs where it occurs. */
  lemma {:induction false} FirstOccurrencesOfUnique(ps: seq<Property>, n: nat)
    requires n <= |ps|
    requires forall i, j :: 0 <= i < j < |ps| ==> ps[i].name != ps[j].name
    ensures |FirstOccurrences(ps, n)| == n
    ensures forall i :: 0 <= i < n ==> FirstOccurrences(ps, n)[i] == ps[i].name
  {
    if n > 0 {
      FirstOccurrencesOfUnique(ps, n - 1);
      assert ps[n - 1].name !in FirstOccurrences(ps, n - 1);
    }
  }

  /**
   * `{"a": 1, "b": true, "a": 2}`: the repeated name keeps the first slot and
   * takes the last value.
   */
  lemma DuplicateNameExample()
    ensures var t := ObjectToken([Property("a", IntegerToken(1)), Property("b", BooleanToken(true)), Property("a", IntegerToken(2))]);
      && Converted(t).Some?
      && Converted(t).value.value.Object?
      && var ms := Converted(t).value.value.members;
      && Names(ms) == ["a", "b"]
      && ms[0].node.value == Integer(2)
      && ms[1].node.value == Boolean(true)
  {
    var ps := [Property("a", IntegerToken(1)), Property("b", BooleanToken(true)), Property("a", IntegerToken(2))];
    var a1 := Member("a", Node(Integer(1), "a", Some(IntegerToken(1))));
    var b := Member("b", Node(Boolean(true), "b", Some(BooleanToken(true))));
    var a2 := Member("a", Node(Integer(2), "a", Some(IntegerToken(2))));
    assert ConvertRun(ps[0].value).outcome == Returned(Some(a1.node.(key := "")));
    assert Put([], "a", a1.node) == [a1];
    assert ConvertMembers(ps, 1).outcome == Returned([a1]);
    assert ConvertRun(ps[1].value).outcome == Returned(Some(b.node.(key := "")));
    assert IndexOf([a1], "b") == -1;
    assert Put([a1], "b", b.node) == [a1, b];
    assert ConvertMembers(ps, 2).outcome == Returned([a1, b]);
    assert ConvertRun(ps[2].value).outcome == Returned(Some(a2.node.(key := "")));
    assert IndexOf([a1, b], "a") == 0;
    assert Put([a1, b], "a", a2.node) == [a2, b];
    assert ConvertMembers(ps, 3).outcome == Returned([a2, b]);
    assert Names([a2, b]) == ["a", "b"];
  }

  /**
   * `[1, <Raw>]`: the unknown element is logged, then adding its null result to
   * the array throws; the array is not returned with the element skipped.
   */
  lemma NestedUnknownExample()
    ensures var run := ConvertRun(ArrayToken([IntegerToken(1), OtherToken("Raw")]));
      run.outcome == Threw(NullReference) && run.log == [Warning("Raw")]
  {
    var cs := [IntegerToken(1), OtherToken("Raw")];
    assert ConvertRun(cs[1]) == Run(Returned(None), [Warning("Raw")]);
    assert ConvertElements(cs, 1).outcome.Returned?;
    assert ConvertElements(cs, 1).log == [];
    assert ConvertElements(cs, 2) == Run(Threw(NullReference), [Warning("Raw")]);
  }

  /**
   * `{"n": 2147483648}` overflows the `int` cast, while `{"n": 9223372036854775808}`
   * holds a `BigInteger`, which the cast to `int` rejects as an invalid cast.
   */
  lemma OutOfRangeExample()
    ensures ConvertRun(ObjectToken([Property("n", IntegerToken(0x8000_0000))])) == Run(Threw(Overflow), [])
    ensures ConvertRun(ObjectToken([Property("n", IntegerToken(0x8000_0000_0000_0000))])) == Run(Threw(InvalidCast), [])
  {
    var small := [Property("n", IntegerToken(0x8000_0000))];
    assert ConvertMembers(small, 1).outcome == Threw(Overflow);
    var big := [Property("n", IntegerToken(0x8000_0000_0000_0000))];
    assert ConvertMembers(big, 1).outcome == Threw(InvalidCast);
  }

}
