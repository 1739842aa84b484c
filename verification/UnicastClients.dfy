/**
 The HTTP clients: one list of all of them, and for each channel a list of those watching it,
 threaded through the same nodes.  Ghost sequences say what the lists hold, in arrival order.
 */
module UnicastClients {

  class Client {
    const socket: int
    var next: Client?
    var prev: Client?
    var chanPtr: Channel?
    var chanNext: Client?
    var chanPrev: Client?

    constructor (socket: int, prev: Client?)
      ensures this.socket == socket && next == null && this.prev == prev
      ensures chanPtr == null && chanNext == null && chanPrev == null
    {
      this.socket := socket;
      next, this.prev, chanPtr, chanNext, chanPrev := null, prev, null, null, null;
    }
  }

  class Channel {
    var clients: Client?
    var numClients: int
    ghost var members: seq<Client>

    constructor ()
      ensures clients == null && numClients == 0 && members == []
    {
      clients, numClients, members := null, 0, [];
    }

    /** The channel's list is linked both ways, and counted. */
    ghost predicate Linked()
      reads this, (set c | c in members)`chanNext, (set c | c in members)`chanPrev
    {
      && clients == At(members, 0)
      && numClients == |members|
      && Distinct(members)
      && (forall i {:trigger members[i].chanNext} :: 0 <= i < |members| ==> members[i].chanNext == At(members, i + 1))
      && (forall i {:trigger members[i].chanPrev} :: 0 <= i < |members| ==> members[i].chanPrev == At(members, i - 1))
    }

    /** Append a client to the channel's list. */
    method Add(client: Client)
      requires Linked() && client !in members
      modifies this, (set c | c in members)`chanNext, client`chanNext, client`chanPrev
      ensures Linked() && members == old(members) + [client]
    {
      client.chanNext := null;
      numClients := numClients + 1;
      if clients == null {
        clients := client;
        client.chanPrev := null;
      } else {
        var lastClient := LastClient();
        lastClient.chanNext := client;
        client.chanPrev := lastClient;
      }
      members := members + [client];
    }

    /** The end of the list. */
    method LastClient() returns (lastClient: Client)
      requires clients == At(members, 0) && members != []
      requires forall i {:trigger members[i].chanNext} :: 0 <= i < |members| ==>
        members[i].chanNext == At(members, i + 1)
      ensures lastClient == members[|members| - 1]
    {
      lastClient := clients;
      ghost var k := 0;
      while lastClient.chanNext != null
        invariant 0 <= k < |members| && lastClient == members[k]
        decreases |members| - k
      {
        lastClient := lastClient.chanNext;
        k := k + 1;
      }
    }

    /** Take a client out of the channel's list. */
    method Remove(client: Client, ghost k: nat)
      requires Linked() && k < |members| && members[k] == client
      modifies this, (set c | c in members)`chanNext, (set c | c in members)`chanPrev
      ensures Linked() && members == Without(old(members), k)
    {
      hide At, Without, Distinct;
      ghost var nodes := members;
      WithoutDistinct(nodes, k);
      AtWithout(nodes, k, 0);
      numClients := numClients - 1;
      Bypass(client, k);
      members := Without(members, k);
      forall i | 0 <= i < |members|
        ensures members[i].chanNext == At(members, i + 1) && members[i].chanPrev == At(members, i - 1)
      {
        WithoutLinks(nodes, k, i);
      }
    }

    /** Link the neighbours of a client with each other. */
    method Bypass(client: Client, ghost k: nat)
      requires k < |members| && members[k] == client && clients == At(members, 0) && Distinct(members)
      requires forall i {:trigger members[i].chanNext} :: 0 <= i < |members| ==>
        members[i].chanNext == At(members, i + 1)
      requires forall i {:trigger members[i].chanPrev} :: 0 <= i < |members| ==>
        members[i].chanPrev == At(members, i - 1)
      modifies this`clients, (set c | c in members)`chanNext, (set c | c in members)`chanPrev
      ensures clients == if k == 0 then At(members, 1) else At(members, 0)
      ensures forall i {:trigger members[i].chanNext} :: 0 <= i < |members| && i != k ==>
        members[i].chanNext == At(members, if i + 1 == k then k + 1 else i + 1)
      ensures forall i {:trigger members[i].chanPrev} :: 0 <= i < |members| && i != k ==>
        members[i].chanPrev == At(members, if i - 1 == k then k - 1 else i - 1)
    {
      if client.chanPrev == null {
        clients := client.chanNext;
        if clients != null {
          clients.chanPrev := null;
        }
      } else {
        client.chanPrev.chanNext := client.chanNext;
        if client.chanNext != null {
          client.chanNext.chanPrev := client.chanPrev;
        }
      }
    }
  }

  class Server {
    var clients: Client?
    var clientNumber: int
    const channels: set<Channel>
    ghost var list: seq<Client>

    constructor (channels: set<Channel>)
      requires forall ch :: ch in channels ==> ch.Linked() && ch.members == []
      ensures this.channels == channels && list == [] && Valid()
    {
      this.channels := channels;
      clients, clientNumber, list := null, 0, [];
    }

    ghost predicate Linked()
      reads this, list`next, list`prev
    {
      && clients == At(list, 0)
      && clientNumber == |list|
      && Distinct(list)
      && (forall i {:trigger list[i].next} :: 0 <= i < |list| ==> list[i].next == At(list, i + 1))
      && (forall i {:trigger list[i].prev} :: 0 <= i < |list| ==> list[i].prev == At(list, i - 1))
    }

    /** A client is in a channel's list if and only if its chanPtr says so. */
    ghost predicate Agree(all: seq<Client>)
      reads (set c | c in all)`chanPtr, channels`members
    {
      && (forall c :: c in all && c.chanPtr != null ==> c.chanPtr in channels && c in c.chanPtr.members)
      && (forall ch, c {:trigger c in ch.members} :: ch in channels && c in ch.members ==> c in all && c.chanPtr == ch)
    }

    ghost predicate Valid()
      reads this, list, channels
    {
      Linked() && Agree(list) && forall ch :: ch in channels ==> ch.Linked()
    }

    method AddClient(socket: int) returns (client: Client)
      requires Valid()
      modifies this, list`next
      ensures Valid() && fresh(client) && client.socket == socket && client.chanPtr == null
      ensures list == old(list) + [client]
      ensures forall ch :: ch in channels ==> ch.members == old(ch.members)
    {
      client := Append(socket);
      assert forall ch, c {:trigger c in ch.members} :: ch in channels && c in ch.members ==> c != client;
    }

    /** A new client at the end of the list of all clients. */
    method Append(socket: int) returns (client: Client)
      requires Linked()
      modifies this, list`next
      ensures Linked() && fresh(client) && client.socket == socket && client.chanPtr == null
      ensures list == old(list) + [client]
    {
      if clients == null {
        client := new Client(socket, null);
        clients := client;
      } else {
        var last := LastClient();
        client := new Client(socket, last);
        last.next := client;
      }
      clientNumber := clientNumber + 1;
      list := list + [client];
    }

    method LastClient() returns (last: Client)
      requires Linked() && list != []
      ensures last == list[|list| - 1]
    {
      last := clients;
      ghost var k := 0;
      while last.next != null
        invariant 0 <= k < |list| && last == list[k]
        decreases |list| - k
      {
        last := last.next;
        k := k + 1;
      }
    }

    /** The client asks for a channel; replied says whether the reply could be written. */
    method Join(client: Client, channel: Channel, replied: bool) returns (ok: bool)
      requires Valid() && client in list && client.chanPtr == null && channel in channels
      modifies channel, (set c | c in channel.members)`chanNext, client`chanNext, client`chanPrev, client`chanPtr
      ensures Valid() && ok == replied && list == old(list)
      ensures ok ==> client.chanPtr == channel && channel.members == old(channel.members) + [client]
      ensures !ok ==> client.chanPtr == null && channel.members == old(channel.members)
      ensures forall ch :: ch in channels && ch != channel ==> ch.members == old(ch.members)
    {
      if !replied {
        return false;
      }
      Enlist(client, channel);
      client.chanPtr := channel;
      ok := true;
    }

    /** Put a client in a channel's list; the other lists stay as they are. */
    method Enlist(client: Client, channel: Channel)
      requires Valid() && client in list && client.chanPtr == null && channel in channels
      modifies channel, (set c | c in channel.members)`chanNext, client`chanNext, client`chanPrev
      ensures Linked() && channel.members == old(channel.members) + [client]
      ensures forall ch :: ch in channels ==> ch.Linked()
      ensures forall ch :: ch in channels && ch != channel ==> ch.members == old(ch.members)
    {
      hide Channel.Linked, Distinct, At;
      ghost var others := channels - {channel};
      assert forall ch, c {:trigger c in ch.members} :: ch in others && c in ch.members ==>
        c !in channel.members && c != client;
      channel.Add(client);
      assert forall ch :: ch in others ==> ch.Linked();
    }

    /** Take a client out of the list of all clients. */
    method Unlink(client: Client, ghost k: nat)
      requires Linked() && k < |list| && list[k] == client
      modifies this, (set c | c in list)`next, (set c | c in list)`prev
      ensures Linked() && list == Without(old(list), k)
    {
      hide At, Without, Distinct;
      ghost var nodes := list;
      WithoutDistinct(nodes, k);
      AtWithout(nodes, k, 0);
      Bypass(client, k);
      clientNumber := clientNumber - 1;
      list := Without(list, k);
      forall i | 0 <= i < |list| ensures list[i].next == At(list, i + 1) && list[i].prev == At(list, i - 1) {
        WithoutLinks(nodes, k, i);
      }
    }

    /** Link the neighbours of a client with each other. */
    method Bypass(client: Client, ghost k: nat)
      requires Linked() && k < |list| && list[k] == client
      modifies this`clients, (set c | c in list)`next, (set c | c in list)`prev
      ensures clients == if k == 0 then At(list, 1) else At(list, 0)
      ensures forall i {:trigger list[i].next} :: 0 <= i < |list| && i != k ==>
        list[i].next == At(list, if i + 1 == k then k + 1 else i + 1)
      ensures forall i {:trigger list[i].prev} :: 0 <= i < |list| && i != k ==>
        list[i].prev == At(list, if i - 1 == k then k - 1 else i - 1)
    {
      var prevClient, nextClient := client.prev, client.next;
      if prevClient == null {
        clients := client.next;
      } else {
        prevClient.next := client.next;
      }
      if nextClient != null {
        nextClient.prev := prevClient;
      }
    }

    /** Take a client out of its channel's list; all is the list with the client still in it. */
    method Leave(client: Client, ghost all: seq<Client>, ghost k: nat)
      requires Agree(all) && Distinct(all) && k < |all| && all[k] == client && list == Without(all, k)
      requires forall ch :: ch in channels ==> ch.Linked()
      modifies channels, (set c | c in all)`chanNext, (set c | c in all)`chanPrev
      ensures Agree(list) && forall ch :: ch in channels ==> ch.Linked()
      ensures forall ch :: ch in channels ==>
        if ch == client.chanPtr then TakenOut(old(ch.members), client, ch.members) else ch.members == old(ch.members)
    {
      WithoutMembers(all, k);
      if client.chanPtr != null {
        var channel := client.chanPtr;
        ghost var j: nat :| j < |channel.members| && channel.members[j] == client;
        ghost var others := channels - {channel};
        assert forall ch, c {:trigger c in ch.members} :: ch in others && c in ch.members ==> c !in channel.members;
        WithoutMembers(channel.members, j);
        channel.Remove(client, j);
        assert forall ch :: ch in others ==> ch.Linked();
      }
    }

    method DelClient(client: Client)
      requires Valid() && client in list
      modifies this, (set c | c in list), channels
      ensures Valid() && TakenOut(old(list), client, list)
      ensures forall ch :: ch in channels ==>
        if ch == old(client.chanPtr) then TakenOut(old(ch.members), client, ch.members)
          else ch.members == old(ch.members)
    {
      ghost var k: nat :| k < |list| && list[k] == client;
      Unlink(client, k);
      Leave(client, old(list), k);
    }

    /** Delete all clients. */
    method Freeing()
      requires Valid()
      modifies this, (set c | c in list), channels
      ensures Valid() && list == [] && clients == null && clientNumber == 0
      ensures forall ch :: ch in channels ==> ch.members == [] && ch.numClients == 0
    {
      var actual := clients;
      while actual != null
        invariant Valid() && actual == clients && forall c :: c in list ==> c in old(list)
        decreases |list|
      {
        var nextClient := actual.next;
        DelClient(actual);
        actual := nextClient;
      }
      assert forall ch :: ch in channels && ch.members != [] ==> ch.members[0] in ch.members;
    }
  }

  // ---------- sequences of nodes ----------

  /** b is a with the one occurrence of c taken out, the others in their order. */
  ghost predicate TakenOut(a: seq<Client>, c: Client, b: seq<Client>)
  {
    exists k: nat :: k < |a| && a[k] == c && b == Without(a, k)
  }

  function At(nodes: seq<Client>, i: int): Client?
  {
    if 0 <= i < |nodes| then nodes[i] else null
  }

  predicate Distinct(nodes: seq<Client>)
  {
    forall i, j :: 0 <= i < j < |nodes| ==> nodes[i] != nodes[j]
  }

  function Without<T>(nodes: seq<T>, k: nat): (r: seq<T>)
    requires k < |nodes|
    ensures |r| == |nodes| - 1
    ensures forall i :: 0 <= i < |r| ==> r[i] == if i < k then nodes[i] else nodes[i + 1]
  {
    nodes[..k] + nodes[k + 1..]
  }

  /** What the links of a node must be when node k is taken out, in terms of the nodes there were. */
  lemma WithoutLinks(nodes: seq<Client>, k: nat, i: nat)
    requires k < |nodes| && i < |nodes| - 1
    ensures var r, j := Without(nodes, k), if i < k then i else i + 1;
      && r[i] == nodes[j]
      && At(r, i + 1) == At(nodes, if j + 1 == k then k + 1 else j + 1)
      && At(r, i - 1) == At(nodes, if j - 1 == k then k - 1 else j - 1)
  {
    AtWithout(nodes, k, i + 1);
    AtWithout(nodes, k, i - 1);
    hide At;
  }

  lemma WithoutDistinct(nodes: seq<Client>, k: nat)
    requires k < |nodes| && Distinct(nodes)
    ensures Distinct(Without(nodes, k))
  {
  }

  lemma AtWithout(nodes: seq<Client>, k: nat, i: int)
    requires k < |nodes|
    ensures At(Without(nodes, k), i) == At(nodes, if i < k then i else i + 1)
  {
  }

  lemma WithoutMembers(nodes: seq<Client>, k: nat)
    requires k < |nodes| && Distinct(nodes)
    ensures forall c :: c in Without(nodes, k) <==> c in nodes && c != nodes[k]
  {
    var r := Without(nodes, k);
    forall c | c in nodes && c != nodes[k] ensures c in r {
      var i :| 0 <= i < |nodes| && nodes[i] == c;
      if i < k {
        assert r[i] == c;
      } else {
        assert r[i - 1] == c;
      }
    }
  }
}
