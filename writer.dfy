/**
 * The JSON writer `WriteJson` drives (Newtonsoft's `JsonWriter`), seen as the
 * sequence of calls it receives, and the token a reader builds back from such
 * a sequence (what `JToken.ReadFrom` yields when it reads what was written).
 */
module Writer {
  import opened Optional
  import opened Tokens
  import opened Nodes

  /** One writer call: `WriteNull`, `WriteStartArray`, `WritePropertyName`, `WriteValue`, ... */
  datatype WriterEvent =
    | NullValue
    | StartArray
    | EndArray
    | StartObject
    | EndObject
    | PropertyName(name: string)
    | BooleanValue(flag: bool)
    | FloatValue(number: Float)
    | IntegerValue(integer: int32)
    | StringValue(text: string)

  class JsonWriter {
    var events: seq<WriterEvent>

    constructor ()
      ensures events == []
    {
      events := [];
    }

    method Write(e: WriterEvent)
      modifies this
      ensures events == old(events) + [e]
    {
      events := events + [e];
    }
  }

  /**
   * Reads one complete value from the front of `evs`: its token and the events
   * after it, or None when `evs` does not start with a complete value.
   */
  function ReadValue(evs: seq<WriterEvent>): (r: Option<(Token, seq<WriterEvent>)>)
    ensures r.Some? ==> |r.value.1| < |evs|
    decreases |evs|, 0
  {
    if |evs| == 0 then None
    else
      match evs[0]
      case NullValue => Some((NullToken, evs[1..]))
      case BooleanValue(b) => Some((BooleanToken(b), evs[1..]))
      case FloatValue(f) => Some((FloatToken(f), evs[1..]))
      case IntegerValue(i) => Some((IntegerToken(i as int), evs[1..]))
      case StringValue(s) => Some((StringToken(s), evs[1..]))
      case StartArray => ReadElements(evs[1..], [])
      case StartObject => ReadProperties(evs[1..], [])
      case _ => None
  }

  /** Reads array elements up to the matching `EndArray`; `acc` holds those read so far. */
  function ReadElements(evs: seq<WriterEvent>, acc: seq<Token>): (r: Option<(Token, seq<WriterEvent>)>)
    ensures r.Some? ==> |r.value.1| < |evs|
    decreases |evs|, 1
  {
    if |evs| == 0 then None
    else if evs[0] == EndArray then Some((ArrayToken(acc), evs[1..]))
    else
      match ReadValue(evs)
      case None => None
      case Some((t, rest)) => ReadElements(rest, acc + [t])
  }

  /** Reads `name, value` pairs up to the matching `EndObject`; `acc` holds those read so far. */
  function ReadProperties(evs: seq<WriterEvent>, acc: seq<Property>): (r: Option<(Token, seq<WriterEvent>)>)
    ensures r.Some? ==> |r.value.1| < |evs|
    decreases |evs|, 1
  {
    if |evs| == 0 then None
    else if evs[0] == EndObject then Some((ObjectToken(acc), evs[1..]))
    else if !evs[0].PropertyName? then None
    else
      match ReadValue(evs[1..])
      case None => None
      case Some((t, rest)) => ReadProperties(rest, acc + [Property(evs[0].name, t)])
  }

}
