/** The registry of connected clients (src/app/util/clients.ts): an ordered
    list of applications with append, remove-by-identity and an ordered
    fan-out of events. Clients are compared by identity, which is equality
    on the type parameter here. */
module Clients {

  /** `connectedClients.filter((client) => client !== a)`. */
  function Without<C(==)>(s: seq<C>, a: C): (r: seq<C>)
    ensures a !in r
    ensures forall x :: x in r ==> x in s
    ensures |r| <= |s|
  {
    if s == [] then []
    else if s[|s| - 1] == a then Without(s[..|s| - 1], a)
    else Without(s[..|s| - 1], a) + [s[|s| - 1]]
  }

  /** Filtering distributes over concatenation, so the survivors keep their
      relative order. */
  lemma {:induction false} WithoutConcat<C>(s: seq<C>, t: seq<C>, a: C)
    ensures Without(s + t, a) == Without(s, a) + Without(t, a)
    decreases |t|
  {
    if t == [] {
      assert s + t == s;
    } else {
      assert (s + t)[..|s + t| - 1] == s + t[..|t| - 1];
      WithoutConcat(s, t[..|t| - 1], a);
    }
  }

  /** Every other client survives, as many times as it was registered. */
  lemma {:induction false} WithoutKeepsOthers<C>(s: seq<C>, a: C)
    ensures multiset(Without(s, a)) == multiset(s)[a := 0]
    decreases |s|
  {
    if s != [] {
      var init := s[..|s| - 1];
      WithoutKeepsOthers(init, a);
      assert s == init + [s[|s| - 1]];
    }
  }

  /** Unregistering a client that is not registered changes nothing. */
  lemma {:induction false} WithoutAbsent<C>(s: seq<C>, a: C)
    requires a !in s
    ensures Without(s, a) == s
    decreases |s|
  {
    if s != [] {
      var init := s[..|s| - 1];
      assert forall x :: x in init ==> x in s;
      WithoutAbsent(init, a);
    }
  }

  /** Registering then unregistering a client removes every entry of it,
      including any registered earlier. */
  lemma RegisterThenUnregister<C>(s: seq<C>, a: C)
    ensures Without(s + [a], a) == Without(s, a)
  {
    WithoutConcat(s, [a], a);
    assert Without([a], a) == [] by { assert [a][..0] == []; }
  }

  /** One call of `application.sendEvent(event, data)`. */
  datatype Delivery<C, D> = Delivery(client: C, event: string, data: D)

  /** The module-level `connectedClients` list and the functions over it. */
  class Registry<C(==), D> {
    var clients: seq<C>

    /** The list starts empty. */
    constructor ()
      ensures clients == []
    {
      clients := [];
    }

    /** `registerClient`: append, with no deduplication. */
    method Register(a: C)
      modifies this
      ensures clients == old(clients) + [a]
    {
      clients := clients + [a];
    }

    /** `unregisterClient`: drop every entry identical to `a`. */
    method Unregister(a: C)
      modifies this
      ensures clients == Without(old(clients), a)
    {
      clients := Without(clients, a);
    }

    /** `broadcast`: one delivery per registered entry, in list order, the
        sender's own application included; the registry is not changed. */
    method Broadcast(event: string, data: D) returns (sent: seq<Delivery<C, D>>)
      ensures |sent| == |clients|
      ensures forall i :: 0 <= i < |sent| ==> sent[i] == Delivery(clients[i], event, data)
    {
      sent := [];
      var i := 0;
      while i < |clients|
        invariant 0 <= i <= |clients|
        invariant |sent| == i
        invariant forall j :: 0 <= j < i ==> sent[j] == Delivery(clients[j], event, data)
      {
        sent := sent + [Delivery(clients[i], event, data)];
        i := i + 1;
      }
    }
  }
}
