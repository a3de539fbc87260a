/** The `/ws` endpoint of the server: the registry of players in the shared
    world, the messages that update it, and the world snapshot sent to every
    registered channel after each update. Every connection owns one outgoing
    channel; the registry holds, for the model, the messages sent to each
    channel so far. */
module Players {
  import opened Base
  import opened Channels

  datatype PlayerRole = Pc | Vr

  datatype Vec3 = Vec3(x: real, y: real, z: real)

  datatype Quat = Quat(x: real, y: real, z: real, w: real)

  /** One player of the shared world: where it stands and, for a VR client,
      the last reported head pose. */
  datatype PlayerState = PlayerState(
    id: string,
    role: PlayerRole,
    x: real,
    y: real,
    z: real,
    headPos: Option<Vec3>,
    headQuat: Option<Quat>)

  /** What a connection may send, once parsed; `Malformed` stands for a text
      frame that does not parse as any of the others. */
  datatype ClientMessage =
    | Join(clientId: string, role: Option<PlayerRole>)
    | Input(clientId: string, dx: real, dy: real, dz: real)
    | VrPose(clientId: string, headPos: Vec3, headQuat: Quat)
    | Malformed

  /** What the server sends to a connection. The snapshot lists the players
      in no particular order, so it is a set here. */
  datatype ServerMessage =
    | WorldSnapshot(players: set<PlayerState>)
    | Joined(clientId: string, role: PlayerRole)
    | Error(message: string)

  const INVALID_MESSAGE: string := "invalid_message"

  /** Every player is filed under its own id. */
  predicate FiledById(players: map<string, PlayerState>)
  {
    forall k :: k in players ==> players[k].id == k
  }

  // ----- The player table, message by message -----

  /** A newly joined player: at the origin, with no head pose. */
  function Newcomer(cid: string, role: PlayerRole): PlayerState
  {
    PlayerState(cid, role, 0.0, 0.0, 0.0, None, None)
  }

  /** A join: a player not yet known is added at the origin; a known player
      keeps its whole state, including the role it first joined with. */
  function Enrol(players: map<string, PlayerState>, cid: string, role: PlayerRole): (r: map<string, PlayerState>)
    ensures r.Keys == players.Keys + {cid}
    ensures cid in players ==> r == players
    ensures cid !in players ==> r[cid] == Newcomer(cid, role)
    ensures forall k :: k in players ==> r[k] == players[k]
    ensures FiledById(players) ==> FiledById(r)
  {
    if cid in players then players else players[cid := Newcomer(cid, role)]
  }

  /** An input: a known player moves by (dx, dy, dz); an unknown id changes
      nothing. */
  function Moved(players: map<string, PlayerState>, cid: string, dx: real, dy: real, dz: real): (r: map<string, PlayerState>)
    ensures r.Keys == players.Keys
    ensures cid in players ==>
      var p := players[cid];
      r[cid] == p.(x := p.x + dx, y := p.y + dy, z := p.z + dz)
    ensures forall k :: k in players && k != cid ==> r[k] == players[k]
    ensures FiledById(players) ==> FiledById(r)
  {
    if cid in players then
      var p := players[cid];
      players[cid := p.(x := p.x + dx, y := p.y + dy, z := p.z + dz)]
    else players
  }

  /** A VR pose: a known player's head position and orientation are replaced;
      an unknown id changes nothing. */
  function Posed(players: map<string, PlayerState>, cid: string, pos: Vec3, quat: Quat): (r: map<string, PlayerState>)
    ensures r.Keys == players.Keys
    ensures cid in players ==> r[cid] == players[cid].(headPos := Some(pos), headQuat := Some(quat))
    ensures forall k :: k in players && k != cid ==> r[k] == players[k]
    ensures FiledById(players) ==> FiledById(r)
  {
    if cid in players then players[cid := players[cid].(headPos := Some(pos), headQuat := Some(quat))]
    else players
  }

  /** The players a snapshot lists: every player of the table, once. */
  function Snapshot(players: map<string, PlayerState>): set<PlayerState>
  {
    players.Values
  }

  /** A snapshot lists a player state exactly when it is the table's entry
      for its id. */
  lemma SnapshotExact(players: map<string, PlayerState>, s: PlayerState)
    requires FiledById(players)
    ensures s in Snapshot(players) <==> s.id in players && players[s.id] == s
  {
    if s in Snapshot(players) {
      var k :| k in players && players[k] == s;
    }
  }

  /** Joining again changes nothing, whatever role the second join asks for. */
  lemma EnrolIdempotent(players: map<string, PlayerState>, cid: string, first: PlayerRole, again: PlayerRole)
    ensures Enrol(Enrol(players, cid, first), cid, again) == Enrol(players, cid, first)
  {
  }

  /** A player that joins and leaves leaves the table as it found it. */
  lemma JoinLeaveRoundTrip(players: map<string, PlayerState>, cid: string, role: PlayerRole)
    requires cid !in players
    ensures Enrol(players, cid, role) - {cid} == players
  {
  }

  /** Two inputs move a player as far as one input of their sum (in exact
      arithmetic). */
  lemma MovesCompose(players: map<string, PlayerState>, cid: string, a: Vec3, b: Vec3)
    ensures Moved(Moved(players, cid, a.x, a.y, a.z), cid, b.x, b.y, b.z)
         == Moved(players, cid, a.x + b.x, a.y + b.y, a.z + b.z)
  {
  }

  /** A pose report replaces the previous one: only the last one counts. */
  lemma LastPoseWins(players: map<string, PlayerState>, cid: string, p1: Vec3, q1: Quat, p2: Vec3, q2: Quat)
    ensures Posed(Posed(players, cid, p1, q1), cid, p2, q2) == Posed(players, cid, p2, q2)
  {
  }

  // ----- The shared world state -----

  class WorldPlayers {
    var players: map<string, PlayerState>
    /** The channel of each joined client id, for snapshots. */
    var clients: map<string, PeerId>
    /** The messages sent so far on the channel of each connection opened. */
    var outboxes: seq<seq<ServerMessage>>

    ghost predicate Valid()
      reads this
    {
      && FiledById(players)
      && forall k :: k in clients ==> clients[k] < |outboxes|
    }

    /** The world of a server that has just started: no players, no clients. */
    constructor ()
      ensures Valid()
      ensures players == map[] && clients == map[] && outboxes == []
    {
      players := map[];
      clients := map[];
      outboxes := [];
    }

    /** A new connection's channel: its position is the next free one. */
    method Open() returns (peer: PeerId)
      requires Valid()
      modifies this
      ensures Valid()
      ensures peer == old(|outboxes|) && outboxes == old(outboxes) + [[]]
      ensures players == old(players) && clients == old(clients)
    {
      peer := |outboxes|;
      outboxes := outboxes + [[]];
    }

    /** `send_world_snapshot`: every player, to every registered channel. */
    method SendWorldSnapshot()
      requires Valid()
      modifies this
      ensures Valid()
      ensures players == old(players) && clients == old(clients)
      ensures outboxes == FanOut(old(outboxes), clients, WorldSnapshot(Snapshot(players)))
    {
      outboxes := Broadcast(outboxes, clients, WorldSnapshot(Snapshot(players)));
    }

    /** One text frame from the connection on channel `peer`, whose last
        joined id is `current`; returns the connection's last joined id
        afterwards. A join enrols the player, files the channel under the id,
        confirms the join with the role asked for (Pc when none) and sends a
        snapshot; an input or a pose updates a known player and sends a
        snapshot; a malformed frame is answered with an error. */
    method Receive(peer: PeerId, current: Option<string>, msg: ClientMessage) returns (clientId: Option<string>)
      requires Valid() && peer < |outboxes|
      modifies this
      ensures Valid()
      ensures msg.Join? ==>
        var role := if msg.role.Some? then msg.role.value else Pc;
        && clientId == Some(msg.clientId)
        && players == Enrol(old(players), msg.clientId, role)
        && clients == old(clients)[msg.clientId := peer]
        && outboxes == FanOut(Send(old(outboxes), peer, Joined(msg.clientId, role)), clients,
                              WorldSnapshot(Snapshot(players)))
      ensures msg.Input? ==>
        && clientId == current
        && players == Moved(old(players), msg.clientId, msg.dx, msg.dy, msg.dz)
        && clients == old(clients)
        && outboxes == FanOut(old(outboxes), clients, WorldSnapshot(Snapshot(players)))
      ensures msg.VrPose? ==>
        && clientId == current
        && players == Posed(old(players), msg.clientId, msg.headPos, msg.headQuat)
        && clients == old(clients)
        && outboxes == FanOut(old(outboxes), clients, WorldSnapshot(Snapshot(players)))
      ensures msg.Malformed? ==>
        && clientId == current
        && players == old(players) && clients == old(clients)
        && outboxes == Send(old(outboxes), peer, Error(INVALID_MESSAGE))
    {
      match msg
      case Join(cid, requested) =>
        var role := if requested.Some? then requested.value else Pc;
        clientId := Some(cid);
        players := Enrol(players, cid, role);
        clients := clients[cid := peer];
        outboxes := Send(outboxes, peer, Joined(cid, role));
        SendWorldSnapshot();
      case Input(cid, dx, dy, dz) =>
        clientId := current;
        players := Moved(players, cid, dx, dy, dz);
        SendWorldSnapshot();
      case VrPose(cid, pos, quat) =>
        clientId := current;
        players := Posed(players, cid, pos, quat);
        SendWorldSnapshot();
      case Malformed =>
        clientId := current;
        outboxes := Send(outboxes, peer, Error(INVALID_MESSAGE));
    }

    /** The clean-up when a connection closes: the player and the channel
        filed under its last joined id are removed; ids it joined with before
        stay. */
    method Disconnect(clientId: Option<string>)
      requires Valid()
      modifies this
      ensures Valid()
      ensures outboxes == old(outboxes)
      ensures clientId.Some? ==> players == old(players) - {clientId.value} && clients == old(clients) - {clientId.value}
      ensures clientId.None? ==> players == old(players) && clients == old(clients)
    {
      if clientId.Some? {
        players := players - {clientId.value};
        clients := clients - {clientId.value};
      }
    }
  }
}
