/**
 * The broadcast hub (`BroadcastServerFactory`): a list of connected
 * clients, kept free of duplicates by `register`, shrunk by `unregister`,
 * and walked in order by `broadcast`, which sends the message to each.
 */
module Broadcast {
  import opened Sequences

  /** One `sendMessage` call: which client was sent which message. */
  datatype Delivery<C> = Delivery(client: C, message: string)

  /** The sends of one broadcast: one per client, in list order. */
  function Deliveries<C>(clients: seq<C>, msg: string): (d: seq<Delivery<C>>)
    ensures |d| == |clients|
    ensures forall i :: 0 <= i < |d| ==> d[i].client == clients[i] && d[i].message == msg
  {
    if clients == [] then [] else [Delivery(clients[0], msg)] + Deliveries(clients[1..], msg)
  }

  /** Each registered client is sent the message exactly once; nobody else is sent it. */
  lemma {:induction false} DeliveredOnceEach<C>(clients: seq<C>, msg: string, c: C)
    requires Distinct(clients)
    ensures multiset(Deliveries(clients, msg))[Delivery(c, msg)] == if c in clients then 1 else 0
  {
    if clients != [] {
      DeliveredOnceEach(clients[1..], msg, c);
      assert Deliveries(clients, msg) == [Delivery(clients[0], msg)] + Deliveries(clients[1..], msg);
      assert clients == [clients[0]] + clients[1..];
      assert clients[0] !in clients[1..];
    }
  }

  /** `register` twice is `register` once. */
  lemma RegisterIdempotent<C>(clients: seq<C>, c: C)
    ensures AppendIfAbsent(AppendIfAbsent(clients, c), c) == AppendIfAbsent(clients, c)
  {
  }

  /** `unregister` twice is `unregister` once, on a list without duplicates. */
  lemma UnregisterIdempotent<C>(clients: seq<C>, c: C)
    requires Distinct(clients)
    ensures RemoveFirst(RemoveFirst(clients, c), c) == RemoveFirst(clients, c)
  {
    RemoveFirstMembers(clients, c, c);
  }

  class BroadcastHub<C(==)> {
    var clients: seq<C>
    /** Every message handed to a client's `sendMessage`, oldest first. */
    var sent: seq<Delivery<C>>

    /** No client is registered twice. */
    ghost predicate Valid()
      reads this
    {
      Distinct(clients)
    }

    constructor ()
      ensures Valid() && clients == [] && sent == []
    {
      clients := [];
      sent := [];
    }

    /** application.py:713-716: append the client unless it is already registered. */
    method Register(client: C)
      requires Valid()
      modifies this
      ensures Valid()
      ensures clients == AppendIfAbsent(old(clients), client)
      ensures sent == old(sent)
    {
      if client !in clients {
        clients := clients + [client];
      }
    }

    /** application.py:718-721: remove the client if it is registered. */
    method Unregister(client: C)
      requires Valid()
      modifies this
      ensures Valid()
      ensures clients == RemoveFirst(old(clients), client)
      ensures client !in clients
      ensures forall c :: c in clients <==> c in old(clients) && c != client
      ensures sent == old(sent)
    {
      RemoveFirstKeepsDistinct(clients, client);
      forall c
        ensures c in RemoveFirst(clients, client) <==> c in clients && c != client
      {
        RemoveFirstMembers(clients, client, c);
      }
      if client in clients {
        clients := RemoveFirst(clients, client);
      }
    }

    /** application.py:723-726: send the message to every client, in list order. */
    method Broadcast(msg: string)
      requires Valid()
      modifies this
      ensures Valid()
      ensures clients == old(clients)
      ensures sent == old(sent) + Deliveries(clients, msg)
    {
      var i := 0;
      while i < |clients|
        invariant 0 <= i <= |clients| && clients == old(clients)
        invariant sent == old(sent) + Deliveries(clients[..i], msg)
      {
        sent := sent + [Delivery(clients[i], msg)];
        assert Deliveries(clients[..i + 1], msg) == Deliveries(clients[..i], msg) + [Delivery(clients[i], msg)];
        i := i + 1;
      }
      assert clients[..i] == clients;
    }
  }
}
