/**
 The local view that each node keeps of the cluster: known nodes, and the address that owns each
 known room. It is fed by lookups, snapshots and pub/sub messages.
 */
module CacheView {
  import opened Options
  import opened NodeValues

  datatype Cache = Cache(nodes: map<string, NodeInfo>, rooms: map<string, string>)

  const EMPTY := Cache(map[], map[])

  datatype Topic = Nodes | Rooms

  // ---------------------------------------------------------------------------
  // Reading and writing
  // ---------------------------------------------------------------------------

  /** The cached owner address of a room; an empty address counts as absent. */
  function RoomAddress(c: Cache, room: string): Option<string> {
    if room in c.rooms && c.rooms[room] != "" then Some(c.rooms[room]) else None
  }

  function NodeAddress(c: Cache, id: string): string {
    if id in c.nodes then c.nodes[id].address else ""
  }

  function UpsertNode(c: Cache, id: string, info: NodeInfo): Cache {
    c.(nodes := c.nodes[id := info])
  }

  function UpsertRoom(c: Cache, room: string, address: string): Cache {
    c.(rooms := c.rooms[room := address])
  }

  function EraseRoom(c: Cache, room: string): Cache {
    c.(rooms := c.rooms - {room})
  }

  /** Forget a node and every room cached under its address. */
  function EraseNode(c: Cache, id: string): Cache {
    if id !in c.nodes then c
    else
      var dead := c.nodes[id].address;
      Cache(c.nodes - {id},
            if dead == "" then c.rooms else map room | room in c.rooms && c.rooms[room] != dead :: c.rooms[room])
  }

  function MergeNodes(c: Cache, news: map<string, NodeInfo>): Cache {
    c.(nodes := c.nodes + news)
  }

  /** The caches agree in everything but the entry of one room. */
  ghost predicate SameButRoom(c: Cache, d: Cache, room: string) {
    d.nodes == c.nodes && d.rooms - {room} == c.rooms - {room}
  }

  /** The caches agree in everything but the entry of one node. */
  ghost predicate SameButNode(c: Cache, d: Cache, id: string) {
    d.rooms == c.rooms && d.nodes - {id} == c.nodes - {id}
  }

  /** A room is forgotten, or known under a new address, and nothing else changes. */
  lemma {:induction false} RoomWrites(c: Cache, room: string, address: string)
    ensures var d := EraseRoom(c, room);
            room !in d.rooms && RoomAddress(d, room) == None && SameButRoom(c, d, room)
    ensures var d := UpsertRoom(c, room, address);
            room in d.rooms && RoomAddress(d, room) == (if address == "" then None else Some(address)) && SameButRoom(c, d, room)
  {
    var d := UpsertRoom(c, room, address);
    assert d.rooms - {room} == c.rooms - {room};
  }

  /** A room whose owner the cache knows by the address of the given node. */
  ghost predicate CachedUnder(c: Cache, id: string, room: string) {
    room in c.rooms && id in c.nodes && c.nodes[id].address != "" && c.rooms[room] == c.nodes[id].address
  }

  /** The dead node and the rooms under its address are gone, all else is as it was. */
  ghost predicate NodeForgotten(c: Cache, d: Cache, id: string) {
    && id !in d.nodes && d.nodes == c.nodes - {id}
    && (forall room :: room in d.rooms <==> room in c.rooms && !CachedUnder(c, id, room))
    && (forall room :: room in d.rooms ==> d.rooms[room] == c.rooms[room])
  }

  /** Nodes are known by their new values, or else by their old ones; rooms stay. */
  ghost predicate NodesOverridden(c: Cache, d: Cache, news: map<string, NodeInfo>) {
    && d.rooms == c.rooms && d.nodes.Keys == c.nodes.Keys + news.Keys
    && (forall id :: id in news ==> d.nodes[id] == news[id])
    && (forall id :: id in c.nodes && id !in news ==> d.nodes[id] == c.nodes[id])
  }

  lemma {:induction false} NodeWrites(c: Cache, id: string, info: NodeInfo, news: map<string, NodeInfo>)
    ensures var d := UpsertNode(c, id, info); id in d.nodes && d.nodes[id] == info && SameButNode(c, d, id)
    ensures NodeForgotten(c, EraseNode(c, id), id)
    ensures NodesOverridden(c, MergeNodes(c, news), news)
  {
    var d := UpsertNode(c, id, info);
    assert d.nodes - {id} == c.nodes - {id};
  }

  /** handlePubSubMessage. */
  function Handle(c: Cache, channel: Topic, data: string): Cache {
    match SplitMessage(data)
    case None => c
    case Some((key, val)) => Updated(c, channel, key, val)
  }

  function Updated(c: Cache, channel: Topic, key: string, val: string): Cache {
    match channel
    case Nodes => if val == "" then EraseNode(c, key) else UpsertNode(c, key, Parse(val))
    case Rooms => if val == "" then EraseRoom(c, key) else UpsertRoom(c, key, val)
  }

  /** A published node update restores key and fields; a published removal removes. */
  lemma {:induction false} NodeMessagesAreUnderstood(c: Cache, id: string, n: NodeInfo)
    requires ValidNodeId(id) && n.rooms < U64 && n.maxRooms < U64
    requires BarFree(n.address) && BarFree(n.isp) && BarFree(n.country)
    ensures Handle(c, Nodes, Message(id, Build(n))) == UpsertNode(c, id, n)
    ensures var d := Handle(c, Nodes, Message(id, Build(n))); id in d.nodes && d.nodes[id] == n && SameButNode(c, d, id)
    ensures Handle(c, Nodes, Message(id, "")) == EraseNode(c, id)
    ensures NodeForgotten(c, Handle(c, Nodes, Message(id, "")), id)
  {
    NodeWrites(c, id, n, map[]);
    NodeUpdateRoundTrip(id, n);
    MessageRoundTrip(id, "");
  }

  /** A room message changes the entry of its own room exactly when the room id contains no `=`. */
  lemma {:induction false} RoomMessagesAreUnderstood(c: Cache, room: string, address: string)
    ensures '=' !in room && address != "" ==> Handle(c, Rooms, Message(room, address)) == UpsertRoom(c, room, address)
    ensures '=' !in room ==> Handle(c, Rooms, Message(room, "")) == EraseRoom(c, room)
    ensures '=' !in room ==>
              var d := Handle(c, Rooms, Message(room, address));
              && SameButRoom(c, d, room) && RoomAddress(d, room) == (if address == "" then None else Some(address))
              && (address == "" ==> room !in d.rooms)
    ensures '=' in room ==>
              exists other, val :: other != room && Handle(c, Rooms, Message(room, address)) == UpsertRoom(c, other, val)
  {
    MessageRoundTrip(room, address);
    MessageRoundTrip(room, "");
    RoomWrites(c, room, address);
    if '=' in room {
      var data := Message(room, address);
      FirstEqualsIsEarly(room, address);
      FindIsFirst(data, '=');
      var (key, val) := SplitMessage(data).value;
      assert |val| > 0 && '=' !in key;
      assert Handle(c, Rooms, data) == UpsertRoom(c, key, val);
    }
  }

  lemma FirstEqualsIsEarly(room: string, address: string)
    requires '=' in room
    ensures Find(Message(room, address), '=') < |room|
  {
    var i :| 0 <= i < |room| && room[i] == '=';
    var data := Message(room, address);
    assert data[i] == '=';
    FindIsFirst(data, '=');
  }

  // ---------------------------------------------------------------------------
  // The object
  // ---------------------------------------------------------------------------

  class CacheObject {
    var nodes: map<string, NodeInfo>
    var rooms: map<string, string>

    function View(): Cache
      reads this
    {
      Cache(nodes, rooms)
    }

    constructor ()
      ensures View() == EMPTY
    {
      nodes, rooms := map[], map[];
    }

    method PutNode(id: string, info: NodeInfo)
      modifies this
      ensures View() == UpsertNode(old(View()), id, info)
      ensures id in nodes && nodes[id] == info && SameButNode(old(View()), View(), id)
    {
      NodeWrites(View(), id, info, map[]);
      nodes := nodes[id := info];
    }

    method PutRoom(room: string, address: string)
      modifies this
      ensures View() == UpsertRoom(old(View()), room, address)
      ensures room in rooms && rooms[room] == address && SameButRoom(old(View()), View(), room)
    {
      RoomWrites(View(), room, address);
      rooms := rooms[room := address];
    }

    method DropRoom(room: string)
      modifies this
      ensures View() == EraseRoom(old(View()), room)
      ensures room !in rooms && SameButRoom(old(View()), View(), room)
    {
      RoomWrites(View(), room, "");
      rooms := rooms - {room};
    }

    method ReplaceAll(newNodes: map<string, NodeInfo>, newRooms: map<string, string>)
      modifies this
      ensures View() == Cache(newNodes, newRooms)
    {
      nodes, rooms := newNodes, newRooms;
    }

    method EraseNodeAndOwnedRooms(id: string)
      modifies this
      ensures View() == EraseNode(old(View()), id) && NodeForgotten(old(View()), View(), id)
    {
      NodeWrites(View(), id, NO_NODE, map[]);
      if id !in nodes { return; }
      var deadAddr := nodes[id].address;
      nodes := nodes - {id};
      if deadAddr == "" { return; }
      var todo := rooms.Keys;
      while todo != {}
        invariant todo <= rooms.Keys <= old(rooms).Keys
        invariant nodes == old(nodes) - {id}
        invariant forall r :: r in rooms ==> rooms[r] == old(rooms)[r]
        invariant forall r :: r in old(rooms) ==>
                    (r in rooms <==> r in todo || old(rooms)[r] != deadAddr)
        decreases todo
      {
        var r :| r in todo;
        todo := todo - {r};
        if rooms[r] == deadAddr { rooms := rooms - {r}; }
      }
    }

    method Merge(news: map<string, NodeInfo>)
      modifies this
      ensures View() == MergeNodes(old(View()), news) && NodesOverridden(old(View()), View(), news)
    {
      var todo := news.Keys;
      while todo != {}
        invariant todo <= news.Keys && rooms == old(rooms)
        invariant nodes.Keys == old(nodes).Keys + (news.Keys - todo)
        invariant forall id :: id in nodes ==> nodes[id] == if id in news && id !in todo then news[id] else old(nodes)[id]
        decreases todo
      {
        var id :| id in todo;
        nodes := nodes[id := news[id]];
        todo := todo - {id};
      }
      assert nodes == old(nodes) + news;
      assert NodesOverridden(old(View()), View(), news) by { NodeWrites(old(View()), "", NO_NODE, news); }
    }

    method HandlePubSubMessage(channel: Topic, data: string)
      modifies this
      ensures View() == Handle(old(View()), channel, data)
    {
      var eq := Find(data, '=');
      if eq == |data| { return; }
      var key, val := data[..eq], data[eq + 1..];
      assert SplitMessage(data) == Some((key, val));
      Update(channel, key, val);
    }

    method Update(channel: Topic, key: string, val: string)
      modifies this
      ensures View() == Updated(old(View()), channel, key, val)
      ensures channel == Rooms ==>
                && SameButRoom(old(View()), View(), key)
                && (val == "" ==> key !in rooms) && (val != "" ==> key in rooms && rooms[key] == val)
      ensures channel == Nodes && val == "" ==> NodeForgotten(old(View()), View(), key)
      ensures channel == Nodes && val != "" ==>
                key in nodes && nodes[key] == Parse(val) && SameButNode(old(View()), View(), key)
    {
      if channel == Rooms {
        if val == "" { DropRoom(key); } else { PutRoom(key, val); }
      } else if val == "" {
        EraseNodeAndOwnedRooms(key);
      } else {
        var info := ParseNodeValue(val);
        PutNode(key, info);
      }
    }
  }
}
