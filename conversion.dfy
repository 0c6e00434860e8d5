/**
 * `JsonNodeConverter.Convert`: token tree to node tree. The pure functions
 * below are the specification; the method `Convert` is the loop-based
 * procedure and is proved to compute exactly what they describe.
 */
module Conversion {
  import opened Optional
  import opened Tokens
  import opened Nodes
  import opened Logging

  /** The exceptions the source can raise while converting or reading. */
  datatype Exception =
    | NullReference  // a key assigned to the null that an unknown nested token yields
    | Overflow       // an integer token inside the 64-bit range but outside the 32-bit one
    | InvalidCast    // an integer token outside the 64-bit range, held as a `BigInteger`
    | ReaderError    // the reader finds no complete token

  /** What a call does in the source: return a value, or throw. */
  datatype Outcome<T> = Returned(value: T) | Threw(error: Exception)

  /** A call's outcome together with the log entries it wrote. */
  datatype Run<T> = Run(outcome: Outcome<T>, log: seq<LogEntry>)

  function Warning(typeName: string): LogEntry
  {
    LogEntry(Warn, "Unknown Token type " + typeName)
  }

  // ---------------------------------------------------------------------------
  // Specification of Convert

  function ConvertRun(j: Token): Run<Option<Node>>
    decreases j
  {
    match j
    case StringToken(s) => Run(Returned(Some(Node(String(s), "", Some(j)))), [])
    case BooleanToken(b) => Run(Returned(Some(Node(Boolean(b), "", Some(j)))), [])
    case FloatToken(f) => Run(Returned(Some(Node(Number(f), "", Some(j)))), [])
    case IntegerToken(i) =>
      if IsInt32(i) then Run(Returned(Some(Node(Integer(i as int32), "", Some(j)))), [])
      else if IsInt64(i) then Run(Threw(Overflow), [])
      else Run(Threw(InvalidCast), [])
    case NullToken => Run(Returned(Some(Node(Null, "", Some(j)))), [])
    case ArrayToken(cs) =>
      var run := ConvertElements(cs, |cs|);
      (match run.outcome
       case Threw(e) => Run(Threw(e), run.log)
       case Returned(arr) => Run(Returned(Some(Node(Array(arr), "", Some(j)))), run.log))
    case ObjectToken(ps) =>
      var run := ConvertMembers(ps, |ps|);
      (match run.outcome
       case Threw(e) => Run(Threw(e), run.log)
       case Returned(obj) => Run(Returned(Some(Node(Object(obj), "", Some(j)))), run.log))
    case OtherToken(name) => Run(Returned(None), [Warning(name)])
  }

  /**
   * One iteration of the array loop: `arrElement.Key = i.ToString()` then
   * `arr.Add(arrElement)`; the key assignment throws on a null element.
   */
  function AddElement(arr: seq<Node>, i: nat, element: Outcome<Option<Node>>): (r: Outcome<seq<Node>>)
    ensures r.Threw? <==> !(element.Returned? && element.value.Some?)
    ensures element == Returned(None) ==> r == Threw(NullReference)
    ensures r.Returned? ==>
      && |r.value| == |arr| + 1
      && r.value[..|arr|] == arr
      && r.value[|arr|] == element.value.value.(key := DecimalString(i))
  {
    match element
    case Threw(e) => Threw(e)
    case Returned(None) => Threw(NullReference)
    case Returned(Some(node)) => Returned(arr + [node.(key := DecimalString(i))])
  }

  /**
   * One iteration of the object loop: `obj[p.Name] = Convert(p.Value)` then
   * `obj[p.Name].Key = p.Name`; the key assignment throws on a null value.
   */
  function AddMember(obj: seq<Member>, name: string, value: Outcome<Option<Node>>): (r: Outcome<seq<Member>>)
    ensures r.Threw? <==> !(value.Returned? && value.value.Some?)
    ensures value == Returned(None) ==> r == Threw(NullReference)
    ensures r.Returned? ==> Member(name, value.value.value.(key := name)) in r.value
  {
    match value
    case Threw(e) => Threw(e)
    case Returned(None) => Threw(NullReference)
    case Returned(Some(node)) => Returned(Put(obj, name, node.(key := name)))
  }

  /**
   * What one object iteration does to the rest of the dictionary: a name
   * already present keeps its slot, a new name goes at the end, and every
   * entry under another name is left as it was.
   */
  lemma AddMemberSemantics(obj: seq<Member>, name: string, value: Outcome<Option<Node>>)
    requires AddMember(obj, name, value).Returned?
    ensures var r := AddMember(obj, name, value).value;
      && Names(r) == (if name in Names(obj) then Names(obj) else Names(obj) + [name])
      && forall k :: 0 <= k < |obj| && obj[k].name != name ==> r[k] == obj[k]
  {
    PutSemantics(obj, name, value.value.value.(key := name));
    IndexOfSemantics(obj, name);
  }

  /** The array loop after its first `n` iterations; an exception ends it. */
  function ConvertElements(cs: seq<Token>, n: nat): Run<seq<Node>>
    requires n <= |cs|
    decreases cs, n
  {
    if n == 0 then Run(Returned([]), [])
    else
      var prev := ConvertElements(cs, n - 1);
      match prev.outcome
      case Threw(_) => prev
      case Returned(arr) =>
        var run := ConvertRun(cs[n - 1]);
        Run(AddElement(arr, n - 1, run.outcome), prev.log + run.log)
  }

  /** The object loop after its first `n` iterations; an exception ends it. */
  function ConvertMembers(ps: seq<Property>, n: nat): Run<seq<Member>>
    requires n <= |ps|
    decreases ps, n
  {
    if n == 0 then Run(Returned([]), [])
    else
      var prev := ConvertMembers(ps, n - 1);
      match prev.outcome
      case Threw(_) => prev
      case Returned(obj) =>
        var run := ConvertRun(ps[n - 1].value);
        Run(AddMember(obj, ps[n - 1].name, run.outcome), prev.log + run.log)
  }

  /** The node `Convert` returns, or None when it returns null or throws. */
  function Converted(j: Token): Option<Node>
  {
    match ConvertRun(j).outcome
    case Returned(o) => o
    case Threw(_) => None
  }

  // ---------------------------------------------------------------------------
  // The procedure

  method Convert(j: Token, log: Logger) returns (r: Outcome<Option<Node>>)
    modifies log
    ensures r == ConvertRun(j).outcome
    ensures log.entries == old(log.entries) + ConvertRun(j).log
    decreases j
  {
    match j {
      case StringToken(s) =>
        r := Returned(Some(Node(String(s), "", Some(j))));
      case BooleanToken(b) =>
        r := Returned(Some(Node(Boolean(b), "", Some(j))));
      case FloatToken(f) =>
        r := Returned(Some(Node(Number(f), "", Some(j))));
      case IntegerToken(i) =>
        if IsInt32(i) {
          r := Returned(Some(Node(Integer(i as int32), "", Some(j))));
        } else if IsInt64(i) {
          r := Threw(Overflow);
        } else {
          r := Threw(InvalidCast);
        }
      case NullToken =>
        r := Returned(Some(Node(Null, "", Some(j))));
      case ArrayToken(cs) =>
        var elements := ConvertChildren(cs, log);
        match elements {
          case Threw(e) => r := Threw(e);
          case Returned(arr) => r := Returned(Some(Node(Array(arr), "", Some(j))));
        }
      case ObjectToken(ps) =>
        var members := ConvertProperties(ps, log);
        match members {
          case Threw(e) => r := Threw(e);
          case Returned(obj) => r := Returned(Some(Node(Object(obj), "", Some(j))));
        }
      case OtherToken(name) =>
        log.Log(Warn, "Unknown Token type " + name);
        r := Returned(None);
    }
  }

  /** The array case of `Convert`: each child converted in order and keyed by its index. */
  method ConvertChildren(cs: seq<Token>, log: Logger) returns (r: Outcome<seq<Node>>)
    modifies log
    ensures r == ConvertElements(cs, |cs|).outcome
    ensures log.entries == old(log.entries) + ConvertElements(cs, |cs|).log
    decreases cs
  {
    var arr: seq<Node> := [];
    var i := 0;
    while i < |cs|
      invariant 0 <= i <= |cs|
      invariant ConvertElements(cs, i).outcome == Returned(arr)
      invariant log.entries == old(log.entries) + ConvertElements(cs, i).log
    {
      ghost var before := ConvertElements(cs, i).log;
      var element := Convert(cs[i], log);
      var next := AddElement(arr, i, element);
      assert ConvertElements(cs, i + 1).log == before + ConvertRun(cs[i]).log;
      assert log.entries == old(log.entries) + ConvertElements(cs, i + 1).log;
      if next.Threw? {
        ElementsFailureSticks(cs, i + 1, |cs|);
        return next;
      }
      arr := next.value;
      i := i + 1;
    }
    r := Returned(arr);
  }

  /** The object case of `Convert`: each property assigned into the dictionary in order. */
  method ConvertProperties(ps: seq<Property>, log: Logger) returns (r: Outcome<seq<Member>>)
    modifies log
    ensures r == ConvertMembers(ps, |ps|).outcome
    ensures log.entries == old(log.entries) + ConvertMembers(ps, |ps|).log
    decreases ps
  {
    var obj: seq<Member> := [];
    var k := 0;
    while k < |ps|
      invariant 0 <= k <= |ps|
      invariant ConvertMembers(ps, k).outcome == Returned(obj)
      invariant log.entries == old(log.entries) + ConvertMembers(ps, k).log
    {
      ghost var before := ConvertMembers(ps, k).log;
      var value := Convert(ps[k].value, log);
      var next := AddMember(obj, ps[k].name, value);
      assert ConvertMembers(ps, k + 1).log == before + ConvertRun(ps[k].value).log;
      assert log.entries == old(log.entries) + ConvertMembers(ps, k + 1).log;
      if next.Threw? {
        MembersFailureSticks(ps, k + 1, |ps|);
        return next;
      }
      obj := next.value;
      k := k + 1;
    }
    r := Returned(obj);
  }

  /** An exception ends the array loop: later elements change nothing. */
  lemma {:induction false} ElementsFailureSticks(cs: seq<Token>, i: nat, n: nat)
    requires i <= n <= |cs|
    requires ConvertElements(cs, i).outcome.Threw?
    ensures ConvertElements(cs, n) == ConvertElements(cs, i)
    decreases n
  {
    if n > i {
      ElementsFailureSticks(cs, i, n - 1);
    }
  }

  /** An exception ends the object loop: later properties change nothing. */
  lemma {:induction false} MembersFailureSticks(ps: seq<Property>, i: nat, n: nat)
    requires i <= n <= |ps|
    requires ConvertMembers(ps, i).outcome.Threw?
    ensures ConvertMembers(ps, n) == ConvertMembers(ps, i)
    decreases n
  {
    if n > i {
      MembersFailureSticks(ps, i, n - 1);
    }
  }

}
