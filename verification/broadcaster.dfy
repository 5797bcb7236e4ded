/**
 * The broadcaster: a table from channel identifiers (game names) to the list of connections
 * subscribed to each, updated in place. Sending a message to a connection is recorded as an
 * effect in `sent`, in order.
 */
module Broadcaster {
  import opened Collections

  /** A message handed to one connection. */
  datatype Delivery<Conn, Message> = Delivery(to: Conn, message: Message)

  /** The deliveries of one message to each listed connection, in list order. */
  function Deliveries<Conn, Message>(conns: seq<Conn>, message: Message): (r: seq<Delivery<Conn, Message>>)
    ensures |r| == |conns| && forall i :: 0 <= i < |r| ==> r[i] == Delivery(conns[i], message)
  {
    seq(|conns|, i requires 0 <= i < |conns| => Delivery(conns[i], message))
  }

  /** The table after subscribeTo(id, conn). */
  function Subscribed<Conn>(channels: map<string, seq<Conn>>, id: string, conn: Conn): map<string, seq<Conn>>
  {
    channels[id := (if id in channels then channels[id] else []) + [conn]]
  }

  /** The table after unsubscribeFrom(id, conn). */
  function Unsubscribed<Conn(==)>(channels: map<string, seq<Conn>>, id: string, conn: Conn): map<string, seq<Conn>>
  {
    if id !in channels then channels
    else
      var rest := RemoveFirst(channels[id], conn);
      if rest == [] then channels - {id} else channels[id := rest]
  }

  class WebSocketBroadcaster<Conn(==), Message> {
    var channels: map<string, seq<Conn>>
    /** Every message sent so far, in order. */
    var sent: seq<Delivery<Conn, Message>>

    /** No identifier is kept with an empty list. */
    ghost predicate Valid()
      reads this
    {
      forall id :: id in channels ==> channels[id] != []
    }

    constructor ()
      ensures Valid() && channels == map[] && sent == []
    {
      channels := map[];
      sent := [];
    }

    /** subscribeTo: appends the connection to the identifier's list, creating the list if absent. */
    method SubscribeTo(id: string, conn: Conn)
      requires Valid()
      modifies this
      ensures Valid()
      ensures channels == Subscribed(old(channels), id, conn)
      ensures sent == old(sent)
    {
      var list := if id in channels then channels[id] else [];
      channels := channels[id := list + [conn]];
    }

    /**
     * unsubscribeFrom: removes the first occurrence of the connection from the identifier's
     * list, and the identifier itself once its list is empty; an unknown identifier is ignored.
     */
    method UnsubscribeFrom(id: string, conn: Conn)
      requires Valid()
      modifies this
      ensures Valid()
      ensures channels == Unsubscribed(old(channels), id, conn)
      ensures sent == old(sent)
    {
      if id in channels {
        var list := RemoveFirst(channels[id], conn);
        if list == [] {
          channels := channels - {id};
        } else {
          channels := channels[id := list];
        }
      }
    }

    /** broadcastTo: sends the message to every entry of the identifier's list, in order. */
    method BroadcastTo(id: string, message: Message)
      requires Valid()
      modifies this
      ensures Valid() && channels == old(channels)
      ensures sent == old(sent) + Deliveries(if id in channels then channels[id] else [], message)
    {
      if id in channels {
        var list := channels[id];
        var i := 0;
        while i < |list|
          invariant 0 <= i <= |list| && channels == old(channels)
          invariant sent == old(sent) + Deliveries(list[..i], message)
        {
          sent := sent + [Delivery(list[i], message)];
          i := i + 1;
          assert list[..i] == list[..i - 1] + [list[i - 1]];
        }
        assert list[..i] == list;
      }
    }
  }

  /** A broadcast reaches exactly the connections subscribed to that identifier. */
  lemma DeliveriesReachSubscribers<Conn, Message>(conns: seq<Conn>, message: Message, conn: Conn)
    ensures (exists i :: 0 <= i < |conns| && Deliveries(conns, message)[i].to == conn) <==> conn in conns
  {
    if conn in conns {
      var i :| 0 <= i < |conns| && conns[i] == conn;
      assert Deliveries(conns, message)[i].to == conn;
    }
  }

  /** Both updates keep every list non-empty and leave every other identifier's list as it was. */
  lemma UpdatesAreLocal<Conn>(channels: map<string, seq<Conn>>, id: string, conn: Conn)
    requires forall k :: k in channels ==> channels[k] != []
    ensures forall k :: k in Subscribed(channels, id, conn) ==> Subscribed(channels, id, conn)[k] != []
    ensures forall k :: k in Unsubscribed(channels, id, conn) ==> Unsubscribed(channels, id, conn)[k] != []
    ensures forall k :: k != id ==> ((k in Subscribed(channels, id, conn) <==> k in channels)
      && (k in channels ==> Subscribed(channels, id, conn)[k] == channels[k]))
    ensures forall k :: k != id ==> ((k in Unsubscribed(channels, id, conn) <==> k in channels)
      && (k in channels ==> Unsubscribed(channels, id, conn)[k] == channels[k]))
  {
  }

  /** Subscribing a new connection and then unsubscribing it restores the table. */
  lemma SubscribeThenUnsubscribe<Conn>(channels: map<string, seq<Conn>>, id: string, conn: Conn)
    requires id in channels ==> conn !in channels[id] && channels[id] != []
    ensures Unsubscribed(Subscribed(channels, id, conn), id, conn) == channels
  {
    if id in channels {
      UndoOnKnownId(channels, id, conn);
    } else {
      UndoOnNewId(channels, id, conn);
    }
  }

  lemma UndoOnNewId<Conn>(channels: map<string, seq<Conn>>, id: string, conn: Conn)
    requires id !in channels
    ensures Unsubscribed(Subscribed(channels, id, conn), id, conn) == channels
  {
    var added := Subscribed(channels, id, conn);
    assert added[id] == [conn];
    assert RemoveFirst([conn], conn) == [];
    assert added - {id} == channels;
  }

  lemma UndoOnKnownId<Conn>(channels: map<string, seq<Conn>>, id: string, conn: Conn)
    requires id in channels && conn !in channels[id] && channels[id] != []
    ensures Unsubscribed(Subscribed(channels, id, conn), id, conn) == channels
  {
    var list := channels[id];
    var added := Subscribed(channels, id, conn);
    RemoveFirstOfAppended(list, conn);
    assert added[id := list] == channels;
  }
}
