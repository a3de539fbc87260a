/** The `/relay` endpoint of the server: rooms with one host and any number of
    clients, the registration of a connection as host or client, the routing of
    its frames, and the clean-up when it closes. Every connection owns one
    outgoing channel; the relay state holds the rooms and, for the model, the
    messages sent to each channel so far. */
module Relay {
  import opened Base
  import opened Channels

  // ----- Role, room codes and player ids -----

  datatype Role = Host | Client

  /** ASCII lower-casing of one character. */
  function AsciiLower(c: char): char
  {
    if 'A' <= c <= 'Z' then (c as int + 32) as char else c
  }

  /** The role a connection asks for: host when its `role` parameter reads
      "host" in any mix of cases, client for anything else. */
  function RoleOf(param: string): (r: Role)
    ensures r == Host <==>
      && |param| == 4
      && param[0] in "hH" && param[1] in "oO" && param[2] in "sS" && param[3] in "tT"
  {
    if |param| == 4 && AsciiLower(param[0]) == 'h' && AsciiLower(param[1]) == 'o'
       && AsciiLower(param[2]) == 's' && AsciiLower(param[3]) == 't'
    then Host
    else Client
  }

  const ALPHABET: string := "ABCDEFGHIJKLMNOPQRSTUVWXYZ0123456789"

  /** A position in ALPHABET, as the random generator draws it. */
  type AlphabetIndex = k: nat | k < 36

  /** `generate_room_code`: six characters, the i-th at the position the
      random generator draws i-th. */
  function GenerateRoomCode(draw: nat -> AlphabetIndex): (code: string)
    ensures |code| == 6
    ensures forall i :: 0 <= i < 6 ==> code[i] in ALPHABET
  {
    seq(6, i requires 0 <= i < 6 => ALPHABET[draw(i)])
  }

  /** The position of a character of ALPHABET. */
  ghost function AlphabetPosition(c: char): (k: AlphabetIndex)
    requires c in ALPHABET
    ensures ALPHABET[k] == c
  {
    var k :| 0 <= k < |ALPHABET| && ALPHABET[k] == c; k
  }

  /** Every six-character code over the alphabet can be generated. */
  lemma EveryCodeGenerable(code: string)
    requires |code| == 6 && forall i :: 0 <= i < 6 ==> code[i] in ALPHABET
    ensures exists draw: nat -> AlphabetIndex :: GenerateRoomCode(draw) == code
  {
    var draw: nat -> AlphabetIndex := (i: nat) => if i < |code| && code[i] in ALPHABET then AlphabetPosition(code[i]) else 0;
    assert GenerateRoomCode(draw) == code;
  }

  function Digit(d: nat): (c: char)
    requires d < 10
    ensures '0' <= c <= '9'
  {
    ('0' as int + d) as char
  }

  /** Decimal notation of a natural number, without leading zeros. */
  function Decimal(n: nat): (s: string)
    ensures |s| > 0 && forall i :: 0 <= i < |s| ==> '0' <= s[i] <= '9'
    ensures n >= 10 ==> |s| >= 2
  {
    if n < 10 then [Digit(n)] else Decimal(n / 10) + [Digit(n % 10)]
  }

  /** Decimal notation of an integer, with a leading '-' when negative. */
  function Signed(i: int): (s: string)
    ensures |s| > 0 && forall k :: 0 <= k < |s| ==> s[k] == '-' || '0' <= s[k] <= '9'
    ensures i < 0 <==> s[0] == '-'
  {
    if i < 0 then "-" + Decimal(-i) else Decimal(i)
  }

  /** Different numbers have different decimal notations. */
  lemma {:induction false} DecimalInjective(a: nat, b: nat)
    requires Decimal(a) == Decimal(b)
    ensures a == b
  {
    if a >= 10 && b >= 10 {
      var da, db := Decimal(a), Decimal(b);
      assert da[..|da| - 1] == Decimal(a / 10);
      assert db[..|db| - 1] == Decimal(b / 10);
      DecimalInjective(a / 10, b / 10);
      assert Digit(a % 10) == da[|da| - 1];
    }
  }

  lemma SignedInjective(a: int, b: int)
    requires Signed(a) == Signed(b)
    ensures a == b
  {
    if a < 0 {
      assert Signed(a)[1..] == Decimal(-a);
      assert Signed(b)[1..] == Decimal(-b);
      DecimalInjective(-a, -b);
    } else {
      DecimalInjective(a, b);
    }
  }

  /** A common prefix can be cancelled. */
  lemma PrefixCancel(p: string, a: string, b: string)
    requires p + a == p + b
    ensures a == b
  {
    assert a == (p + a)[|p|..];
    assert b == (p + b)[|p|..];
  }

  /** The separator cannot come earlier in one than in the other. */
  lemma SeparatorNotEarlier(a: string, x: string, b: string, y: string)
    requires '_' !in a && a + "_" + x == b + "_" + y
    ensures |a| <= |b|
  {
    assert (a + "_" + x)[|b|] == '_' by {
      assert (b + "_" + y)[|b|] == '_';
    }
  }

  /** Two strings joined by a separator that does not occur in the first
      parts split back into the same parts. */
  lemma SeparatorSplit(a: string, x: string, b: string, y: string)
    requires '_' !in a && '_' !in b && a + "_" + x == b + "_" + y
    ensures a == b && x == y
  {
    SeparatorNotEarlier(a, x, b, y);
    SeparatorNotEarlier(b, y, a, x);
    assert a == (a + "_" + x)[..|a|];
    assert b == (b + "_" + y)[..|b|];
    assert x == (a + "_" + x)[|a| + 1..];
    assert y == (b + "_" + y)[|b| + 1..];
  }

  /** The id given to a joining client: "player_", the clock in milliseconds,
      '_', and a random 32-bit number. */
  function PlayerId(millis: int, nonce: u32): string
  {
    "player_" + (Signed(millis) + "_" + Decimal(nonce))
  }

  /** Two joins get the same player id only when they read the same clock and
      draw the same number. */
  lemma PlayerIdInjective(m1: int, n1: u32, m2: int, n2: u32)
    ensures PlayerId(m1, n1) == PlayerId(m2, n2) <==> m1 == m2 && n1 == n2
  {
    if PlayerId(m1, n1) == PlayerId(m2, n2) {
      PrefixCancel("player_", Signed(m1) + "_" + Decimal(n1), Signed(m2) + "_" + Decimal(n2));
      SeparatorSplit(Signed(m1), Decimal(n1), Signed(m2), Decimal(n2));
      SignedInjective(m1, m2);
      DecimalInjective(n1, n2);
    }
  }

  // ----- Messages, rooms and sessions -----

  /** What the relay sends to a connection. */
  datatype Outgoing =
    | RoomCreated(roomCode: string)
    | JoinError(message: string)
    | JoinedRoom(roomCode: string, playerId: string)
    | PlayerJoined(playerId: string, totalPlayers: nat)
    | PlayerLeft(playerId: string, totalPlayers: nat)
    | HostDisconnected
    | RelayedText(text: string)
    | RelayedBinary(data: seq<u8>)

  const ROOM_CODE_REQUIRED: string := "Room code required"
  const ROOM_UNAVAILABLE: string := "Room not found or host offline"

  /** A room: the host's channel, if a host is attached, and the channel of
      every client under its player id. */
  datatype Room = Room(host: Option<PeerId>, clients: map<string, PeerId>)

  /** What a connection remembers after registering. */
  datatype Session = HostSession(code: string) | ClientSession(code: string, playerId: string)

  /** A room whose channels are all open, whose clients have distinct channels
      other than the host's, and which has a host or a client. */
  predicate RoomValid(room: Room, n: nat)
  {
    && (room.host.Some? ==> room.host.value < n && room.host.value !in room.clients.Values)
    && (forall k :: k in room.clients ==> room.clients[k] < n)
    && Injective(room.clients)
    && (room.host.Some? || |room.clients| > 0)
  }

  // ----- The room table, event by event -----

  /** The clients of room `code`, none when there is no such room. */
  function ClientsOf(rooms: map<string, Room>, code: string): map<string, PeerId>
  {
    if code in rooms then rooms[code].clients else map[]
  }

  /** A host registers for `code`: the room is created when missing, and its
      host becomes `peer` whether or not it had one; its clients stay. */
  function WithHost(rooms: map<string, Room>, code: string, peer: PeerId): (r: map<string, Room>)
    ensures r.Keys == rooms.Keys + {code}
    ensures r[code].host == Some(peer)
    ensures r[code].clients == if code in rooms then rooms[code].clients else map[]
    ensures forall c :: c in rooms && c != code ==> r[c] == rooms[c]
  {
    rooms[code := Room(Some(peer), ClientsOf(rooms, code))]
  }

  /** Whether a client may join: the code it names, or the error it is sent. */
  function Admission(rooms: map<string, Room>, room: Option<string>): (r: Result<string, string>)
    ensures r.Ok? <==> room.Some? && room.value in rooms && rooms[room.value].host.Some?
    ensures r.Ok? ==> r.value == room.value
    ensures room.None? ==> r == Err(ROOM_CODE_REQUIRED)
    ensures room.Some? && r.Err? ==> r.error == ROOM_UNAVAILABLE
  {
    match room
    case None => Err(ROOM_CODE_REQUIRED)
    case Some(code) =>
      if code !in rooms || rooms[code].host.None? then Err(ROOM_UNAVAILABLE) else Ok(code)
  }

  /** A client joins room `code` under `pid`; nothing else changes. */
  function WithClient(rooms: map<string, Room>, code: string, pid: string, peer: PeerId): (r: map<string, Room>)
    requires code in rooms
    ensures r.Keys == rooms.Keys
    ensures r[code].host == rooms[code].host
    ensures r[code].clients == rooms[code].clients[pid := peer]
    ensures pid !in rooms[code].clients ==> |r[code].clients| == |rooms[code].clients| + 1
    ensures forall c :: c in rooms && c != code ==> r[c] == rooms[c]
  {
    rooms[code := Room(rooms[code].host, rooms[code].clients[pid := peer])]
  }

  /** Stores `room` under `code`, or drops the entry when the room has neither
      host nor clients. */
  function Tidy(rooms: map<string, Room>, code: string, room: Room): (r: map<string, Room>)
    ensures code in r <==> room.host.Some? || |room.clients| > 0
    ensures code in r ==> r[code] == room
    ensures forall c :: c != code ==> (c in r <==> c in rooms) && (c in r ==> r[c] == rooms[c])
  {
    if room.host.None? && |room.clients| == 0 then rooms - {code} else rooms[code := room]
  }

  /** The host of `code` disconnects: the room loses its host (whichever
      connection is host now) and disappears when it has no clients. */
  function AfterHostLeaves(rooms: map<string, Room>, code: string): (r: map<string, Room>)
    ensures code !in rooms ==> r == rooms
    ensures code in rooms ==> (code in r <==> |rooms[code].clients| > 0)
    ensures code in rooms && code in r ==> r[code] == Room(None, rooms[code].clients)
    ensures forall c :: c != code ==> (c in r <==> c in rooms) && (c in r ==> r[c] == rooms[c])
  {
    if code in rooms then Tidy(rooms, code, Room(None, rooms[code].clients)) else rooms
  }

  /** Client `pid` of `code` disconnects: its entry goes, and the room
      disappears when it is left without host and clients. */
  function AfterClientLeaves(rooms: map<string, Room>, code: string, pid: string): (r: map<string, Room>)
    ensures code !in rooms ==> r == rooms
    ensures code in rooms ==> (code in r <==> rooms[code].host.Some? || |rooms[code].clients - {pid}| > 0)
    ensures code in rooms && code in r ==> r[code] == Room(rooms[code].host, rooms[code].clients - {pid})
    ensures forall c :: c != code ==> (c in r <==> c in rooms) && (c in r ==> r[c] == rooms[c])
  {
    if code in rooms then Tidy(rooms, code, Room(rooms[code].host, rooms[code].clients - {pid})) else rooms
  }

  /** A client that joins and then leaves leaves the room table as it found it. */
  lemma JoinLeaveRoundTrip(rooms: map<string, Room>, code: string, pid: string, peer: PeerId)
    requires Admission(rooms, Some(code)).Ok?
    requires pid !in rooms[code].clients
    ensures AfterClientLeaves(WithClient(rooms, code, pid, peer), code, pid) == rooms
  {
    var joined := WithClient(rooms, code, pid, peer);
    assert joined[code].clients - {pid} == rooms[code].clients;
  }

  /** When a host leaves and a host registers again under the same code, the
      clients that were in the room are still there. */
  lemma HostReconnectKeepsClients(rooms: map<string, Room>, code: string, peer: PeerId)
    ensures WithHost(AfterHostLeaves(rooms, code), code, peer)[code] == Room(Some(peer), ClientsOf(rooms, code))
  {
  }

  /** The room table stays valid when one room is tidied with a valid
      room or an empty one. */
  lemma TidyValid(rooms: map<string, Room>, code: string, room: Room, n: nat)
    requires forall c :: c in rooms ==> RoomValid(rooms[c], n)
    requires RoomValid(room, n) || (room.host.None? && |room.clients| == 0)
    ensures forall c :: c in Tidy(rooms, code, room) ==> RoomValid(Tidy(rooms, code, room)[c], n)
  {
  }

  /** A host registration keeps the room table valid when the host's channel
      is open and not yet in any room. */
  lemma WithHostValid(rooms: map<string, Room>, code: string, peer: PeerId, n: nat)
    requires forall c :: c in rooms ==> RoomValid(rooms[c], n)
    requires peer < n
    requires forall c :: c in rooms ==> rooms[c].host != Some(peer) && peer !in rooms[c].clients.Values
    ensures forall c :: c in WithHost(rooms, code, peer) ==> RoomValid(WithHost(rooms, code, peer)[c], n)
  {
    var r := WithHost(rooms, code, peer);
    assert code in rooms ==> RoomValid(rooms[code], n);
    assert RoomValid(r[code], n);
  }

  /** A client admitted into a room keeps the room table valid when the
      client's channel is open and not yet in any room. */
  lemma WithClientValid(rooms: map<string, Room>, code: string, pid: string, peer: PeerId, n: nat)
    requires forall c :: c in rooms ==> RoomValid(rooms[c], n)
    requires code in rooms && rooms[code].host.Some? && peer < n
    requires forall c :: c in rooms ==> rooms[c].host != Some(peer) && peer !in rooms[c].clients.Values
    ensures forall c :: c in WithClient(rooms, code, pid, peer) ==> RoomValid(WithClient(rooms, code, pid, peer)[c], n)
  {
    var before := rooms[code].clients;
    var after := before[pid := peer];
    assert RoomValid(rooms[code], n);
    assert Injective(after) by {
      forall k1, k2 | k1 in after && k2 in after && k1 != k2
        ensures after[k1] != after[k2]
      {
        if k1 != pid && k2 != pid {
          assert before[k1] != before[k2];
        } else if k1 == pid {
          assert before[k2] in before.Values;
        } else {
          assert before[k1] in before.Values;
        }
      }
    }
    assert rooms[code].host.value !in after.Values;
    assert RoomValid(WithClient(rooms, code, pid, peer)[code], n);
  }

  // ----- The shared relay state -----

  class RelayState {
    var rooms: map<string, Room>
    /** The messages sent so far on the channel of each connection opened. */
    var outboxes: seq<seq<Outgoing>>

    ghost predicate Valid()
      reads this
    {
      forall code :: code in rooms ==> RoomValid(rooms[code], |outboxes|)
    }

    /** The state of a server that has just started: no rooms, no connections. */
    constructor ()
      ensures Valid()
      ensures rooms == map[] && outboxes == []
    {
      rooms := map[];
      outboxes := [];
    }

    /** A new connection's channel: its position is the next free one. */
    method Open() returns (peer: PeerId)
      requires Valid()
      modifies this
      ensures Valid()
      ensures peer == old(|outboxes|) && outboxes == old(outboxes) + [[]]
      ensures rooms == old(rooms)
    {
      peer := |outboxes|;
      outboxes := outboxes + [[]];
      forall code | code in rooms
        ensures RoomValid(rooms[code], |outboxes|)
      {
        assert RoomValid(rooms[code], peer);
      }
    }

    /** Registration of a host: the code it names, or a fresh one; the room is
        created when missing and `peer` becomes its host; the host is told the
        code. */
    method RegisterHost(peer: PeerId, room: Option<string>, draw: nat -> AlphabetIndex) returns (code: string)
      requires Valid() && peer < |outboxes|
      requires forall c :: c in rooms ==> rooms[c].host != Some(peer) && peer !in rooms[c].clients.Values
      modifies this
      ensures Valid()
      ensures code == if room.Some? then room.value else GenerateRoomCode(draw)
      ensures rooms == WithHost(old(rooms), code, peer)
      ensures outboxes == Send(old(outboxes), peer, RoomCreated(code))
    {
      code := if room.Some? then room.value else GenerateRoomCode(draw);
      WithHostValid(rooms, code, peer, |outboxes|);
      rooms := WithHost(rooms, code, peer);
      outboxes := Send(outboxes, peer, RoomCreated(code));
    }

    /** Registration of a client: with no code, or no room with a host under
        its code, it is sent the error and nothing else changes; otherwise it
        is entered under `pid`, told its code and id, and the host is told the
        new number of clients. */
    method RegisterClient(peer: PeerId, room: Option<string>, pid: string) returns (session: Option<Session>)
      requires Valid() && peer < |outboxes|
      requires forall c :: c in rooms ==> rooms[c].host != Some(peer) && peer !in rooms[c].clients.Values
      modifies this
      ensures Valid()
      ensures session.Some? <==> Admission(old(rooms), room).Ok?
      ensures Admission(old(rooms), room).Err? ==>
        && rooms == old(rooms)
        && outboxes == Send(old(outboxes), peer, JoinError(Admission(old(rooms), room).error))
      ensures Admission(old(rooms), room).Ok? ==>
        var code := room.value;
        var host := old(rooms)[code].host.value;
        && session == Some(ClientSession(code, pid))
        && rooms == WithClient(old(rooms), code, pid, peer)
        && outboxes == Send(Send(old(outboxes), peer, JoinedRoom(code, pid)), host,
                            PlayerJoined(pid, |rooms[code].clients|))
    {
      match Admission(rooms, room)
      case Err(message) =>
        outboxes := Send(outboxes, peer, JoinError(message));
        session := None;
      case Ok(code) =>
        var host := rooms[code].host.value;
        WithClientValid(rooms, code, pid, peer, |outboxes|);
        rooms := WithClient(rooms, code, pid, peer);
        outboxes := Send(outboxes, peer, JoinedRoom(code, pid));
        outboxes := Send(outboxes, host, PlayerJoined(pid, |rooms[code].clients|));
        session := Some(ClientSession(code, pid));
    }

    /** A new connection asking for `roleParam`: its channel is opened, then it
        registers as host or as client. The clock reading and the random number
        that make up a client's player id are supplied. */
    method Connect(roleParam: string, room: Option<string>, draw: nat -> AlphabetIndex, millis: int, nonce: u32)
      returns (peer: PeerId, session: Option<Session>)
      requires Valid()
      modifies this
      ensures Valid()
      ensures peer == old(|outboxes|) && |outboxes| == peer + 1
      ensures RoleOf(roleParam) == Host ==>
        var code := if room.Some? then room.value else GenerateRoomCode(draw);
        && session == Some(HostSession(code))
        && rooms == WithHost(old(rooms), code, peer)
        && outboxes == Send(old(outboxes) + [[]], peer, RoomCreated(code))
      ensures RoleOf(roleParam) == Client && Admission(old(rooms), room).Err? ==>
        && session == None
        && rooms == old(rooms)
        && outboxes == Send(old(outboxes) + [[]], peer, JoinError(Admission(old(rooms), room).error))
      ensures RoleOf(roleParam) == Client && Admission(old(rooms), room).Ok? ==>
        var code := room.value;
        var pid := PlayerId(millis, nonce);
        && session == Some(ClientSession(code, pid))
        && rooms == WithClient(old(rooms), code, pid, peer)
        && outboxes == Send(Send(old(outboxes) + [[]], peer, JoinedRoom(code, pid)), old(rooms)[code].host.value,
                            PlayerJoined(pid, |rooms[code].clients|))
    {
      peer := Open();
      forall c | c in rooms
        ensures rooms[c].host != Some(peer) && peer !in rooms[c].clients.Values
      {
        assert RoomValid(rooms[c], peer);
      }
      if RoleOf(roleParam) == Host {
        var code := RegisterHost(peer, room, draw);
        session := Some(HostSession(code));

      } else {
        session := RegisterClient(peer, room, PlayerId(millis, nonce));

      }
    }

    /** A binary frame: relayed to every client of the room when it comes from
        a host connection, dropped when it comes from a client. */
    method Binary(session: Session, data: seq<u8>)
      requires Valid()
      modifies this
      ensures Valid()
      ensures rooms == old(rooms)
      ensures session.HostSession? && session.code in rooms ==>
        outboxes == FanOut(old(outboxes), rooms[session.code].clients, RelayedBinary(data))
      ensures !(session.HostSession? && session.code in rooms) ==> outboxes == old(outboxes)
    {
      if session.HostSession? && session.code in rooms {
        outboxes := Broadcast(outboxes, rooms[session.code].clients, RelayedBinary(data));
      }
    }

    /** A text frame: from a host connection, relayed to every client of the
        room; from a client, to the room's host when it has one. */
    method Text(session: Session, text: string)
      requires Valid()
      modifies this
      ensures Valid()
      ensures rooms == old(rooms)
      ensures session.HostSession? && session.code in rooms ==>
        outboxes == FanOut(old(outboxes), rooms[session.code].clients, RelayedText(text))
      ensures session.ClientSession? && session.code in rooms && rooms[session.code].host.Some? ==>
        outboxes == Send(old(outboxes), rooms[session.code].host.value, RelayedText(text))
      ensures session.code !in rooms || (session.ClientSession? && rooms[session.code].host.None?) ==>
        outboxes == old(outboxes)
    {
      if session.code in rooms {
        var r := rooms[session.code];
        if session.HostSession? {
          outboxes := Broadcast(outboxes, r.clients, RelayedText(text));
        } else if r.host.Some? {
          outboxes := Send(outboxes, r.host.value, RelayedText(text));
        }
      }
    }

    /** The clean-up when a registered connection closes. A host tells every
        client of its room that the host is gone and detaches the room's host;
        a client leaves the room and the host, if any, is told the remaining
        number of clients. A room left with neither is removed. */
    method Disconnect(session: Session)
      requires Valid()
      modifies this
      ensures Valid()
      ensures session.HostSession? ==> rooms == AfterHostLeaves(old(rooms), session.code)
      ensures session.HostSession? && session.code in old(rooms) ==>
        outboxes == FanOut(old(outboxes), old(rooms)[session.code].clients, HostDisconnected)
      ensures session.ClientSession? ==> rooms == AfterClientLeaves(old(rooms), session.code, session.playerId)
      ensures session.ClientSession? && session.code in old(rooms) && old(rooms)[session.code].host.Some? ==>
        outboxes == Send(old(outboxes), old(rooms)[session.code].host.value,
                         PlayerLeft(session.playerId, |old(rooms)[session.code].clients - {session.playerId}|))
      ensures session.code !in old(rooms)
              || (session.ClientSession? && old(rooms)[session.code].host.None?) ==>
        outboxes == old(outboxes)
    {
      var code := session.code;
      if code in rooms {
        var r := rooms[code];
        var n := |outboxes|;
        if session.HostSession? {
          outboxes := Broadcast(outboxes, r.clients, HostDisconnected);
          TidyValid(rooms, code, Room(None, r.clients), n);
          rooms := AfterHostLeaves(rooms, code);
        } else {
          var remaining := r.clients - {session.playerId};
          if r.host.Some? {
            outboxes := Send(outboxes, r.host.value, PlayerLeft(session.playerId, |remaining|));
          }
          assert Injective(remaining) by {
            forall k1, k2 | k1 in remaining && k2 in remaining && k1 != k2
              ensures remaining[k1] != remaining[k2]
            {
              assert r.clients[k1] != r.clients[k2];
            }
          }
          assert r.host.Some? ==> r.host.value !in remaining.Values;
          TidyValid(rooms, code, Room(r.host, remaining), n);
          rooms := AfterClientLeaves(rooms, code, session.playerId);
        }
      }
    }
  }

  /** In a valid room table, a host's frame reaches each client of the room
      exactly once and no other connection. */
  lemma HostFrameOnce(rooms: map<string, Room>, boxes: seq<seq<Outgoing>>, code: string, m: Outgoing)
    requires code in rooms && RoomValid(rooms[code], |boxes|)
    ensures forall p :: 0 <= p < |boxes| ==>
      FanOut(boxes, rooms[code].clients, m)[p] ==
        if p in rooms[code].clients.Values then boxes[p] + [m] else boxes[p]
    ensures rooms[code].host.Some? ==>
      FanOut(boxes, rooms[code].clients, m)[rooms[code].host.value] == boxes[rooms[code].host.value]
  {
    FanOutOnce(boxes, rooms[code].clients, m);
  }
}
