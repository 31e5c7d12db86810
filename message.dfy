/** The envelope agents exchange; immutable once built. */
module Messages {
  import opened Items
  import opened Arguments
  import opened CriterionValues

  datatype Performative = Propose | Accept | Commit | AskWhy | Argue | QueryRef | InformRef | NotAgree

  /**
   * What a message carries: an item, an argument object, a criterion value (which the
   * agent tests for), a string, or nothing (the `None` an agent sends when it has no
   * supporting argument left).
   */
  datatype Content =
    | ItemContent(item: Item)
    | ArgumentContent(arg: Argument)
    | CriterionValueContent(cv: CriterionValue)
    | TextContent(text: string)
    | NoContent

  /** `Message(from_agent, to_agent, performative, content)`; the getters are the fields. */
  datatype Message = Message(sender: string, recipient: string, performative: Performative, content: Content)

  /** One message of the same kind and content from `from` to each of `tos`, in order. */
  function Broadcast(from: string, tos: seq<string>, p: Performative, c: Content): (ms: seq<Message>)
    ensures |ms| == |tos|
    ensures forall i :: 0 <= i < |tos| ==> ms[i] == Message(from, tos[i], p, c)
  {
    if tos == [] then [] else [Message(from, tos[0], p, c)] + Broadcast(from, tos[1..], p, c)
  }

  lemma BroadcastAppend(from: string, tos: seq<string>, to: string, p: Performative, c: Content)
    ensures Broadcast(from, tos + [to], p, c) == Broadcast(from, tos, p, c) + [Message(from, to, p, c)]
  {
    var l, r := Broadcast(from, tos + [to], p, c), Broadcast(from, tos, p, c) + [Message(from, to, p, c)];
    assert |l| == |r|;
    forall i | 0 <= i < |l| ensures l[i] == r[i] {
      if i < |tos| {
        assert (tos + [to])[i] == tos[i];
      }
    }
  }

  /** Sending one more message after a broadcast extends the broadcast. */
  lemma BroadcastExtend(sent: seq<Message>, from: string, tos: seq<string>, to: string, p: Performative, c: Content)
    ensures (sent + Broadcast(from, tos, p, c)) + [Message(from, to, p, c)] == sent + Broadcast(from, tos + [to], p, c)
  {
    BroadcastAppend(from, tos, to, p, c);
    var b := Broadcast(from, tos, p, c);
    var m := Message(from, to, p, c);
    assert |(sent + b) + [m]| == |sent + (b + [m])|;
    forall i | 0 <= i < |sent| + |b| + 1 ensures ((sent + b) + [m])[i] == (sent + (b + [m]))[i] {
    }
  }
}
