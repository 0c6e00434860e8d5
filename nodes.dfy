/**
 * The application's internal JSON tree (`JsonNode`): a tagged value, the key that
 * records the node's place in its parent, and a back-reference to the token it
 * was built from. Also the dictionary operation and the index-to-text conversion
 * the converter relies on.
 */
module Nodes {
  import opened Optional
  import opened Tokens

  /** An integer that fits a C# `int`. */
  predicate IsInt32(i: int)
  {
    -0x8000_0000 <= i < 0x8000_0000
  }

  /** An integer that fits a C# `long`, the widest a token holds without a `BigInteger`. */
  predicate IsInt64(i: int)
  {
    -0x8000_0000_0000_0000 <= i < 0x8000_0000_0000_0000
  }

  newtype int32 = x: int | IsInt32(x)

  /** The node's type tag together with the one payload that tag allows. */
  datatype Value =
    | Null
    | Boolean(b: bool)
    | Number(f: Float)
    | Integer(i: int32)
    | String(s: string)
    | Array(elements: seq<Node>)
    /** A dictionary from property name to node, listed in its enumeration order. */
    | Object(members: seq<Member>)

  datatype Node = Node(value: Value, key: string, source: Option<Token>)

  datatype Member = Member(name: string, node: Node)

  function Names(ms: seq<Member>): seq<string>
  {
    seq(|ms|, k requires 0 <= k < |ms| => ms[k].name)
  }

  predicate DistinctNames(ms: seq<Member>)
  {
    forall i, j :: 0 <= i < j < |ms| ==> ms[i].name != ms[j].name
  }

  /** Position of the entry named `name`, or -1 when there is none. */
  function IndexOf(ms: seq<Member>, name: string): (k: int)
    ensures -1 <= k < |ms|
  {
    if |ms| == 0 then -1
    else if ms[0].name == name then 0
    else
      var k := IndexOf(ms[1..], name);
      if k < 0 then -1 else k + 1
  }

  lemma {:induction false} IndexOfSemantics(ms: seq<Member>, name: string)
    ensures var k := IndexOf(ms, name);
      && (k < 0 <==> name !in Names(ms))
      && (0 <= k ==> ms[k].name == name && name !in Names(ms[..k]))
  {
    if |ms| > 0 {
      if ms[0].name == name {
        assert Names(ms)[0] == name;
      } else {
        IndexOfSemantics(ms[1..], name);
        var k := IndexOf(ms[1..], name);
        assert Names(ms[1..]) == Names(ms)[1..];
        assert 0 <= k ==> Names(ms[..k + 1]) == [ms[0].name] + Names(ms[1..][..k]);
      }
    }
  }

  /**
   * `d[name] = node` on a dictionary: an existing entry keeps its position and
   * takes the new node, a new name is added at the end.
   */
  function Put(ms: seq<Member>, name: string, node: Node): (r: seq<Member>)
    ensures |ms| <= |r| <= |ms| + 1
    ensures Member(name, node) in r
  {
    var k := IndexOf(ms, name);
    if k < 0 then ms + [Member(name, node)]
    else assert ms[k := Member(name, node)][k] == Member(name, node); ms[k := Member(name, node)]
  }

  /** What `Put` does to the names, their order and the stored nodes. */
  lemma PutSemantics(ms: seq<Member>, name: string, node: Node)
    ensures var r := Put(ms, name, node);
      && Names(r) == (if name in Names(ms) then Names(ms) else Names(ms) + [name])
      && (DistinctNames(ms) ==> DistinctNames(r))
      && (DistinctNames(ms) ==>
            forall k :: 0 <= k < |ms| ==> r[k] == if ms[k].name == name then Member(name, node) else ms[k])
      && (name !in Names(ms) ==> r[|ms|] == Member(name, node))
  {
    IndexOfSemantics(ms, name);
    var k := IndexOf(ms, name);
    if k < 0 {
      assert forall i :: 0 <= i < |ms| ==> ms[i].name == Names(ms)[i] != name;
    } else {
      assert Names(ms[k := Member(name, node)]) == Names(ms);
      assert DistinctNames(ms) ==> forall i :: 0 <= i < |ms| && i != k ==> ms[i].name != name;
    }
  }

  function DigitChar(d: nat): char
    requires d < 10
  {
    (('0' as int) + d) as char
  }

  predicate IsDigit(c: char)
  {
    '0' <= c <= '9'
  }

  /** The text `n.ToString()` gives for a non-negative integer. */
  function DecimalString(n: nat): (s: string)
    ensures |s| >= 1
    ensures forall i :: 0 <= i < |s| ==> IsDigit(s[i])
    ensures |s| > 1 ==> s[0] != '0'
  {
    if n < 10 then [DigitChar(n)] else DecimalString(n / 10) + [DigitChar(n % 10)]
  }

  /** Reads a string of decimal digits back as a number. */
  function ParseDecimal(s: string): nat
    requires forall i :: 0 <= i < |s| ==> IsDigit(s[i])
  {
    if |s| == 0 then 0
    else
      var d := (s[|s| - 1] as int) - ('0' as int);
      assert 0 <= d by { assert IsDigit(s[|s| - 1]); }
      10 * ParseDecimal(s[..|s| - 1]) + d
  }

  lemma {:induction false} DecimalRoundTrip(n: nat)
    ensures ParseDecimal(DecimalString(n)) == n
  {
    if n >= 10 {
      DecimalRoundTrip(n / 10);
      var s := DecimalString(n);
      assert s[..|s| - 1] == DecimalString(n / 10);
    }
  }

  /** Different array positions never get the same key. */
  lemma DecimalStringInjective(a: nat, b: nat)
    ensures DecimalString(a) == DecimalString(b) ==> a == b
  {
    DecimalRoundTrip(a);
    DecimalRoundTrip(b);
  }

  /**
   * The invariant of a tree the converter hands out: array elements are keyed
   * by their index, object members by their name, and no object repeats a name.
   */
  predicate WellFormed(n: Node)
    decreases n
  {
    match n.value
    case Array(es) =>
      forall i :: 0 <= i < |es| ==> es[i].key == DecimalString(i) && WellFormed(es[i])
    case Object(ms) =>
      DistinctNames(ms) &&
      forall k :: 0 <= k < |ms| ==> ms[k].node.key == ms[k].name && WellFormed(ms[k].node)
    case _ => true
  }

  /** The tree with every back-reference to a source token dropped; kinds, payloads, keys and order are kept. */
  function Erase(n: Node): (r: Node)
    decreases n
  {
    match n.value
    case Array(es) =>
      Node(Array(seq(|es|, i requires 0 <= i < |es| => Erase(es[i]))), n.key, None)
    case Object(ms) =>
      Node(Object(seq(|ms|, k requires 0 <= k < |ms| => Member(ms[k].name, Erase(ms[k].node)))), n.key, None)
    case _ =>
      Node(n.value, n.key, None)
  }

}
