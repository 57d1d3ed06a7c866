/**
 * The room/session store of lib/game-store.ts. The hosted tables (game_rooms, players,
 * enigma_progress, chat_messages) are held in memory: rooms in a map keyed by id, the other
 * tables as sequences in insertion order, which is the order the store's reads sort by
 * (joined_at, created_at). Row ids come from a counter, the current time is a parameter, and
 * every write whose error the source checks takes that error as a parameter.
 */
module Store {
  import opened Wrappers
  import opened Text

  type Id = nat

  const PlayerColors: seq<string> := ["#FF69B4", "#4ECDC4", "#FFD93D", "#A78BFA"]
  const PlayerAvatars: seq<string> := ["\U{1F3AD}", "\U{1F3A8}", "\U{1F3AA}", "\U{1F3AC}"]
  const MaxPlayers: int := 4

  const NotFoundMessage: string := "Partie introuvable. Vérifiez le code."
  const FullMessage: string := "La partie est complète (4 joueurs maximum)"
  const StartedMessage: string := "La partie a déjà commencé"

  datatype Status = Waiting | Playing | Completed
  datatype Team = Labo | Oncopole

  datatype Room = Room(id: Id, code: string, hostId: Option<Id>, status: Status,
                       currentEnigma: int, maxPlayers: int, createdAt: int)

  datatype Player = Player(id: Id, roomId: Id, name: string, color: string, avatar: string,
                           isHost: bool, team: Option<Team>, joinedAt: int)

  datatype ChatMessage = ChatMessage(id: Id, roomId: Id, playerId: Id, playerName: string,
                                     playerColor: string, message: string, createdAt: int)

  datatype EnigmaProgress = EnigmaProgress(id: Id, roomId: Id, enigmaNumber: int, startedAt: int,
                                           completedAt: Option<int>, timeSpent: Option<int>)

  /** A partial update of a room row, as passed to updateRoom: None leaves the column as it is */
  datatype RoomPatch = RoomPatch(code: Option<string>, hostId: Option<Option<Id>>, status: Option<Status>,
                                 currentEnigma: Option<int>, createdAt: Option<int>)

  /** `.single()`: a row only when exactly one row matched */
  function Single<T>(rows: seq<T>): (r: Option<T>)
    ensures r.Some? <==> |rows| == 1
    ensures r.Some? ==> rows == [r.value]
  {
    if |rows| == 1 then Some(rows[0]) else None
  }

  // ---------------------------------------------------------------------------------------------
  // Selections over the player table

  /** The players of one room, in join order (getPlayers) */
  function PlayersIn(s: seq<Player>, rid: Id): (r: seq<Player>)
    ensures |r| <= |s|
  {
    if s == [] then []
    else if s[|s| - 1].roomId == rid then PlayersIn(s[..|s| - 1], rid) + [s[|s| - 1]]
    else PlayersIn(s[..|s| - 1], rid)
  }

  /** getPlayers returns every player of the room and nobody else */
  lemma {:induction false} PlayersInMembers(s: seq<Player>, rid: Id)
    ensures forall p :: p in PlayersIn(s, rid) <==> p in s && p.roomId == rid
  {
    if s != [] {
      PlayersInMembers(s[..|s| - 1], rid);
      assert s == s[..|s| - 1] + [s[|s| - 1]];
    }
  }

  /** A player's position in its room's join order: how many of its room joined before it */
  function Rank(s: seq<Player>, j: nat): nat
    requires j < |s|
  {
    |PlayersIn(s[..j], s[j].roomId)|
  }

  /** The players holding a given id */
  function PlayersWithId(s: seq<Player>, pid: Id): (r: seq<Player>)
    ensures forall p :: p in r <==> p in s && p.id == pid
  {
    if s == [] then []
    else if s[|s| - 1].id == pid then PlayersWithId(s[..|s| - 1], pid) + [s[|s| - 1]]
    else PlayersWithId(s[..|s| - 1], pid)
  }

  /** The chat messages of one room, oldest first (getChatMessages) */
  function MessagesIn(s: seq<ChatMessage>, rid: Id): (r: seq<ChatMessage>)
    ensures forall m :: m in r <==> m in s && m.roomId == rid
  {
    if s == [] then []
    else if s[|s| - 1].roomId == rid then MessagesIn(s[..|s| - 1], rid) + [s[|s| - 1]]
    else MessagesIn(s[..|s| - 1], rid)
  }

  /** The progress rows of one room for one enigma number */
  function ProgressFor(s: seq<EnigmaProgress>, rid: Id, n: int): (r: seq<EnigmaProgress>)
    ensures forall e :: e in r <==> e in s && e.roomId == rid && e.enigmaNumber == n
  {
    if s == [] then []
    else if s[|s| - 1].roomId == rid && s[|s| - 1].enigmaNumber == n then ProgressFor(s[..|s| - 1], rid, n) + [s[|s| - 1]]
    else ProgressFor(s[..|s| - 1], rid, n)
  }

  /** Appending a player extends its room's selection by that player and no other */
  lemma PlayersInAppend(s: seq<Player>, p: Player, rid: Id)
    ensures PlayersIn(s + [p], rid) == PlayersIn(s, rid) + (if p.roomId == rid then [p] else [])
  {
    assert (s + [p])[..|s|] == s;
  }

  lemma ProgressForAppend(s: seq<EnigmaProgress>, e: EnigmaProgress, rid: Id, n: int)
    ensures ProgressFor(s + [e], rid, n) == ProgressFor(s, rid, n) + (if e.roomId == rid && e.enigmaNumber == n then [e] else [])
  {
    assert (s + [e])[..|s|] == s;
  }

  /** A room's selection depends only on the room column, so editing other columns keeps its size */
  lemma {:induction false} SameRoomsSameCount(s: seq<Player>, t: seq<Player>, rid: Id)
    requires |s| == |t|
    requires forall k :: 0 <= k < |s| ==> s[k].roomId == t[k].roomId
    ensures |PlayersIn(s, rid)| == |PlayersIn(t, rid)|
  {
    if s != [] {
      SameRoomsSameCount(s[..|s| - 1], t[..|t| - 1], rid);
    }
  }

  /** Ranks are taken within the prefix, so a later row never changes an earlier rank */
  lemma RankOfPrefix(s: seq<Player>, t: seq<Player>, j: nat)
    requires j < |s| <= |t| && s == t[..|s|]
    ensures Rank(s, j) == Rank(t, j)
  {
    assert s[..j] == t[..j];
  }

  /** One more row of the prefix adds one to the count exactly when it belongs to the room */
  lemma PrefixStep(s: seq<Player>, j: nat, rid: Id)
    requires j < |s|
    ensures |PlayersIn(s[..j + 1], rid)| == |PlayersIn(s[..j], rid)| + (if s[j].roomId == rid then 1 else 0)
  {
    assert s[..j + 1][..j] == s[..j];
  }

  lemma {:induction false} PrefixCountMonotone(s: seq<Player>, a: nat, b: nat, rid: Id)
    requires a <= b <= |s|
    ensures |PlayersIn(s[..a], rid)| <= |PlayersIn(s[..b], rid)|
  {
    if a < b {
      PrefixCountMonotone(s, a, b - 1, rid);
      PrefixStep(s, b - 1, rid);
    }
  }

  /** Within one room, a later joiner has a strictly larger rank */
  lemma RankIncreases(s: seq<Player>, i: nat, j: nat)
    requires i < j < |s| && s[i].roomId == s[j].roomId
    ensures Rank(s, i) < Rank(s, j)
  {
    PrefixStep(s, i, s[i].roomId);
    PrefixCountMonotone(s, i + 1, j, s[i].roomId);
  }

  /** A player's rank is below the number of players of its room */
  lemma RankBelowCount(s: seq<Player>, j: nat)
    requires j < |s|
    ensures Rank(s, j) < |PlayersIn(s, s[j].roomId)|
  {
    PrefixStep(s, j, s[j].roomId);
    PrefixCountMonotone(s, j + 1, |s|, s[j].roomId);
    assert s[..|s|] == s;
  }

  /** The i-th player of a room in join order is the row whose rank is i */
  lemma {:induction false} RankIndex(s: seq<Player>, rid: Id, i: nat) returns (j: nat)
    requires i < |PlayersIn(s, rid)|
    ensures j < |s| && s[j].roomId == rid && Rank(s, j) == i
    ensures PlayersIn(s, rid)[i] == s[j]
  {
    var init := s[..|s| - 1];
    if i < |PlayersIn(init, rid)| {
      j := RankIndex(init, rid, i);
      RankOfPrefix(init, s, j);
    } else {
      j := |s| - 1;
      assert s[..j] == init;
    }
  }

  // ---------------------------------------------------------------------------------------------
  // Invariants of the tables

  predicate PlayerIdsUnique(s: seq<Player>) {
    forall i, j :: 0 <= i < j < |s| ==> s[i].id != s[j].id
  }

  predicate ProgressIdsUnique(s: seq<EnigmaProgress>) {
    forall i, j :: 0 <= i < j < |s| ==> s[i].id != s[j].id
  }

  /** Every room is stored under its own id, below the id supply, with the fixed capacity */
  predicate RoomsKeyed(rooms: map<Id, Room>, nextId: nat) {
    forall rid :: rid in rooms ==> rooms[rid].id == rid && rid < nextId && rooms[rid].maxPlayers == MaxPlayers
  }

  /** Player rows have ids from the supply, no two alike, and belong to a stored room */
  predicate PlayerRows(players: seq<Player>, rooms: map<Id, Room>, nextId: nat) {
    && (forall j :: 0 <= j < |players| ==> players[j].id < nextId && players[j].roomId in rooms)
    && PlayerIdsUnique(players)
  }

  /** Capacity: every stored room holds at least its creator and at most max_players players */
  predicate Occupancy(players: seq<Player>, rooms: map<Id, Room>) {
    forall rid :: rid in rooms ==> 1 <= |PlayersIn(players, rid)| <= rooms[rid].maxPlayers
  }

  /** The host flag is carried by the first player of each room in join order, and only by it */
  predicate HostIsFirst(players: seq<Player>) {
    forall j {:trigger Rank(players, j)} :: 0 <= j < |players| ==> (players[j].isHost <==> Rank(players, j) == 0)
  }

  /** Colour and avatar are the palette entries at the player's position in its room */
  predicate PaletteByJoinOrder(players: seq<Player>) {
    forall j {:trigger Rank(players, j)} :: 0 <= j < |players| ==>
      Rank(players, j) < |PlayerColors|
      && players[j].color == PlayerColors[Rank(players, j)]
      && players[j].avatar == PlayerAvatars[Rank(players, j)]
  }

  predicate ProgressRows(progress: seq<EnigmaProgress>, nextId: nat) {
    (forall k :: 0 <= k < |progress| ==> progress[k].id < nextId) && ProgressIdsUnique(progress)
  }

  predicate TablesValid(rooms: map<Id, Room>, players: seq<Player>, progress: seq<EnigmaProgress>, nextId: nat) {
    && RoomsKeyed(rooms, nextId)
    && PlayerRows(players, rooms, nextId)
    && Occupancy(players, rooms)
    && HostIsFirst(players)
    && PaletteByJoinOrder(players)
    && ProgressRows(progress, nextId)
  }

  /** Each stored room has exactly one host, and it is the room's first player in join order */
  lemma OneHostPerRoom(rooms: map<Id, Room>, players: seq<Player>, progress: seq<EnigmaProgress>, nextId: nat, rid: Id)
    returns (h: nat)
    requires TablesValid(rooms, players, progress, nextId) && rid in rooms
    ensures h < |players| && players[h].roomId == rid && players[h].isHost
    ensures PlayersIn(players, rid)[0] == players[h]
    ensures forall j :: 0 <= j < |players| && players[j].roomId == rid && players[j].isHost ==> j == h
  {
    h := RankIndex(players, rid, 0);
    forall j | 0 <= j < |players| && players[j].roomId == rid && players[j].isHost
      ensures j == h
    {
      if j < h {
        RankIncreases(players, j, h);
      } else if h < j {
        RankIncreases(players, h, j);
      }
    }
  }

  /** The four palette colours, and the four avatars, are pairwise different */
  lemma PaletteEntriesDistinct(a: nat, b: nat)
    requires a < b < 4
    ensures PlayerColors[a] != PlayerColors[b] && PlayerAvatars[a] != PlayerAvatars[b]
  {
    assert PlayerColors[a][3] != PlayerColors[b][3];
    assert PlayerAvatars[a][0] != PlayerAvatars[b][0];
  }

  /** Two players of the same room never share a colour or an avatar */
  lemma DistinctColoursInRoom(players: seq<Player>, i: nat, j: nat)
    requires PaletteByJoinOrder(players)
    requires i < j < |players| && players[i].roomId == players[j].roomId
    ensures players[i].color != players[j].color && players[i].avatar != players[j].avatar
  {
    RankIncreases(players, i, j);
    PaletteEntriesDistinct(Rank(players, i), Rank(players, j));
  }

  // ---------------------------------------------------------------------------------------------
  // Table updates that keep the invariant

  /** Adding a row at the end leaves every earlier player's rank as it was */
  lemma AppendKeepsRanks(s: seq<Player>, p: Player, j: nat)
    requires j < |s|
    ensures Rank(s + [p], j) == Rank(s, j)
  {
    RankOfPrefix(s, s + [p], j);
  }

  /** A room nobody has joined has an empty selection */
  lemma NoMembersNoSelection(s: seq<Player>, rid: Id)
    requires forall j :: 0 <= j < |s| ==> s[j].roomId != rid
    ensures PlayersIn(s, rid) == []
  {
    PlayersInMembers(s, rid);
  }

  /**
   * A player appended at position k of its room keeps the host and palette rules exactly when
   * it is host iff k == 0 and takes the k-th colour and avatar
   */
  lemma AppendKeepsJoinOrderRules(players: seq<Player>, p: Player)
    requires HostIsFirst(players) && PaletteByJoinOrder(players)
    requires |PlayersIn(players, p.roomId)| < |PlayerColors|
    requires p.isHost <==> |PlayersIn(players, p.roomId)| == 0
    requires p.color == PlayerColors[|PlayersIn(players, p.roomId)|]
    requires p.avatar == PlayerAvatars[|PlayersIn(players, p.roomId)|]
    ensures HostIsFirst(players + [p]) && PaletteByJoinOrder(players + [p])
  {
    var players' := players + [p];
    forall j | 0 <= j < |players'|
      ensures (players'[j].isHost <==> Rank(players', j) == 0)
      ensures Rank(players', j) < |PlayerColors|
      ensures players'[j].color == PlayerColors[Rank(players', j)] && players'[j].avatar == PlayerAvatars[Rank(players', j)]
    {
      if j < |players| {
        AppendKeepsRanks(players, p, j);
      } else {
        assert players'[..j] == players;
      }
    }
  }

  lemma OccupancyAfterAdmit(players: seq<Player>, rooms: map<Id, Room>, p: Player)
    requires Occupancy(players, rooms)
    requires p.roomId in rooms && |PlayersIn(players, p.roomId)| < rooms[p.roomId].maxPlayers
    ensures Occupancy(players + [p], rooms)
  {
    forall rid | rid in rooms
      ensures 1 <= |PlayersIn(players + [p], rid)| <= rooms[rid].maxPlayers
    {
      PlayersInAppend(players, p, rid);
    }
  }

  lemma OccupancyAfterOpen(players: seq<Player>, rooms: map<Id, Room>, room: Room, host: Player)
    requires Occupancy(players, rooms)
    requires PlayersIn(players, room.id) == []
    requires room.id !in rooms && host.roomId == room.id && room.maxPlayers >= 1
    ensures PlayersIn(players + [host], room.id) == [host]
    ensures Occupancy(players + [host], rooms[room.id := room])
  {
    PlayersInAppend(players, host, room.id);
    forall rid | rid in rooms
      ensures PlayersIn(players + [host], rid) == PlayersIn(players, rid)
    {
      PlayersInAppend(players, host, rid);
    }
  }

  /** A room inserted under the next id keeps the rooms keyed */
  lemma RoomsKeyedAfterInsert(rooms: map<Id, Room>, nextId: nat, nextId': nat, room: Room)
    requires RoomsKeyed(rooms, nextId)
    requires room.id == nextId < nextId' && room.maxPlayers == MaxPlayers
    ensures nextId !in rooms
    ensures RoomsKeyed(rooms[nextId := room], nextId')
  {
    var rooms' := rooms[nextId := room];
    forall rid | rid in rooms'
      ensures rooms'[rid].id == rid && rid < nextId'
    {
      if rid != nextId {
        assert rid in rooms;
      }
    }
  }

  /** A player row with a fresh id, in a stored room, keeps the row rules */
  lemma PlayerRowsAfterAppend(players: seq<Player>, rooms: map<Id, Room>, rooms': map<Id, Room>,
                              nextId: nat, nextId': nat, p: Player)
    requires PlayerRows(players, rooms, nextId)
    requires rooms.Keys <= rooms'.Keys && nextId <= p.id < nextId' && p.roomId in rooms'
    ensures PlayerRows(players + [p], rooms', nextId')
  {
  }

  /**
   * createRoom's successful path: a fresh room under the next id and its creator as first
   * player, host, with the first colour and avatar
   */
  lemma OpenRoomKeepsInvariant(rooms: map<Id, Room>, players: seq<Player>, progress: seq<EnigmaProgress>,
                               nextId: nat, room: Room, host: Player)
    requires TablesValid(rooms, players, progress, nextId)
    requires room.id == nextId && room.maxPlayers == MaxPlayers
    requires host.id == nextId + 1 && host.roomId == nextId && host.isHost
    requires host.color == PlayerColors[0] && host.avatar == PlayerAvatars[0]
    ensures nextId !in rooms
    ensures PlayersIn(players + [host], nextId) == [host]
    ensures TablesValid(rooms[nextId := room], players + [host], progress, nextId + 2)
  {
    RoomsKeyedAfterInsert(rooms, nextId, nextId + 2, room);
    NoMembersNoSelection(players, nextId);
    OccupancyAfterOpen(players, rooms, room, host);
    PlayerRowsAfterAppend(players, rooms, rooms[nextId := room], nextId, nextId + 2, host);
    AppendKeepsJoinOrderRules(players, host);
  }

  /** joinRoom's successful path: one more non-host player, below capacity, with the next palette slot */
  lemma AdmitKeepsInvariant(rooms: map<Id, Room>, players: seq<Player>, progress: seq<EnigmaProgress>,
                            nextId: nat, p: Player)
    requires TablesValid(rooms, players, progress, nextId)
    requires p.roomId in rooms && |PlayersIn(players, p.roomId)| < rooms[p.roomId].maxPlayers
    requires p.id == nextId && !p.isHost
    requires p.color == PlayerColors[|PlayersIn(players, p.roomId)|]
    requires p.avatar == PlayerAvatars[|PlayersIn(players, p.roomId)|]
    ensures TablesValid(rooms, players + [p], progress, nextId + 1)
  {
    OccupancyAfterAdmit(players, rooms, p);
    PlayerRowsAfterAppend(players, rooms, rooms, nextId, nextId + 1, p);
    AppendKeepsJoinOrderRules(players, p);
  }

  /** Rewriting a stored room row under its own id and capacity keeps the invariant */
  lemma RoomRowKeepsInvariant(rooms: map<Id, Room>, players: seq<Player>, progress: seq<EnigmaProgress>,
                              nextId: nat, rid: Id, room: Room)
    requires TablesValid(rooms, players, progress, nextId)
    requires rid in rooms && room.id == rid && room.maxPlayers == MaxPlayers
    ensures TablesValid(rooms[rid := room], players, progress, nextId)
  {
  }

  /** Appending a progress row under the next id keeps the invariant */
  lemma ProgressRowKeepsInvariant(rooms: map<Id, Room>, players: seq<Player>, progress: seq<EnigmaProgress>,
                                  nextId: nat, e: EnigmaProgress)
    requires TablesValid(rooms, players, progress, nextId)
    requires e.id == nextId
    ensures TablesValid(rooms, players, progress + [e], nextId + 1)
  {
  }

  // ---------------------------------------------------------------------------------------------
  // Team assignment (assignTeams)

  /** Math.ceil(k / 2) for a player count k */
  function Half(k: nat): (h: nat)
    ensures k == 2 * h || k == 2 * h - 1
  {
    (k + 1) / 2
  }

  function TeamAt(i: nat, half: nat): Team {
    if i < half then Labo else Oncopole
  }

  /** The team update of one player row, matched by id */
  function SetTeam(s: seq<Player>, pid: Id, team: Team): (r: seq<Player>)
    ensures |r| == |s|
  {
    seq(|s|, k requires 0 <= k < |s| => if s[k].id == pid then s[k].(team := Some(team)) else s[k])
  }

  /** The player table once the first i players of room rid, in join order, have their team */
  function Labelled(s: seq<Player>, rid: Id, half: nat, i: nat): (r: seq<Player>)
    ensures |r| == |s|
  {
    seq(|s|, k requires 0 <= k < |s| =>
      if s[k].roomId == rid && Rank(s, k) < i then s[k].(team := Some(TeamAt(Rank(s, k), half))) else s[k])
  }

  /** The player table after assignTeams(rid) */
  function TeamsAssigned(s: seq<Player>, rid: Id): (r: seq<Player>)
    ensures |r| == |s|
  {
    var k := |PlayersIn(s, rid)|;
    Labelled(s, rid, Half(k), k)
  }

  /** One turn of assignTeams' loop labels exactly the next player of the room in join order */
  lemma LabelStep(s: seq<Player>, rid: Id, half: nat, i: nat)
    requires PlayerIdsUnique(s) && i < |PlayersIn(s, rid)|
    ensures SetTeam(Labelled(s, rid, half, i), PlayersIn(s, rid)[i].id, TeamAt(i, half)) == Labelled(s, rid, half, i + 1)
  {
    var j0 := RankIndex(s, rid, i);
    var before, after := Labelled(s, rid, half, i), Labelled(s, rid, half, i + 1);
    var stepped := SetTeam(before, s[j0].id, TeamAt(i, half));
    forall k | 0 <= k < |s|
      ensures stepped[k] == after[k]
    {
      if k != j0 {
        if s[k].roomId == rid && Rank(s, k) == i {
          if k < j0 { RankIncreases(s, k, j0); } else { RankIncreases(s, j0, k); }
        }
      }
    }
  }

  /** Rewriting only the team column keeps every rank */
  lemma SameRoomsSameRank(s: seq<Player>, t: seq<Player>, j: nat)
    requires |s| == |t| && j < |s|
    requires forall k :: 0 <= k < |s| ==> s[k].roomId == t[k].roomId
    ensures Rank(s, j) == Rank(t, j)
  {
    SameRoomsSameCount(s[..j], t[..j], s[j].roomId);
  }

  /**
   * assignTeams in join order: the i-th player of the room keeps every field but the team,
   * which is "labo" for the first ceil(k/2) of the k players and "oncopole" for the rest
   */
  lemma TeamsInJoinOrder(s: seq<Player>, rid: Id, i: nat)
    requires i < |PlayersIn(s, rid)|
    ensures |PlayersIn(TeamsAssigned(s, rid), rid)| == |PlayersIn(s, rid)|
    ensures PlayersIn(TeamsAssigned(s, rid), rid)[i]
         == PlayersIn(s, rid)[i].(team := Some(if i < Half(|PlayersIn(s, rid)|) then Labo else Oncopole))
  {
    var k := |PlayersIn(s, rid)|;
    var t := Labelled(s, rid, Half(k), k);
    assert forall m :: 0 <= m < |s| ==> t[m].roomId == s[m].roomId;
    SameRoomsSameCount(s, t, rid);
    var j := RankIndex(s, rid, i);
    var j' := RankIndex(t, rid, i);
    SameRoomsSameRank(s, t, j');
    if j < j' { RankIncreases(s, j, j'); } else if j' < j { RankIncreases(s, j', j); }
    assert t[j] == s[j].(team := Some(TeamAt(i, Half(k))));
  }

  /** assignTeams leaves other rooms' players, and every column but team, unchanged */
  lemma TeamsTouchOnlyTheRoom(s: seq<Player>, rid: Id, j: nat)
    requires j < |s|
    ensures TeamsAssigned(s, rid)[j] == s[j].(team := TeamsAssigned(s, rid)[j].team)
    ensures s[j].roomId != rid ==> TeamsAssigned(s, rid)[j] == s[j]
  {
  }

  /** Relabelling teams keeps the store invariant */
  lemma TeamsKeepInvariant(rooms: map<Id, Room>, s: seq<Player>, progress: seq<EnigmaProgress>, nextId: nat, t: seq<Player>)
    requires TablesValid(rooms, s, progress, nextId)
    requires |t| == |s| && forall k :: 0 <= k < |s| ==> t[k] == s[k].(team := t[k].team)
    ensures TablesValid(rooms, t, progress, nextId)
  {
    forall rid | rid in rooms ensures |PlayersIn(t, rid)| == |PlayersIn(s, rid)| {
      SameRoomsSameCount(s, t, rid);
    }
    forall j | 0 <= j < |t| ensures Rank(t, j) == Rank(s, j) {
      SameRoomsSameRank(s, t, j);
    }
  }

  // ---------------------------------------------------------------------------------------------
  // Finding a room by code (joinRoom)

  /** The ids of the stored rooms whose code is `code` */
  function RoomsWithCode(rooms: map<Id, Room>, code: string): set<Id> {
    set rid | rid in rooms.Keys && rooms[rid].code == code
  }

  lemma SingletonIs(m: set<Id>, x: Id)
    requires x in m && |m| == 1
    ensures m == {x}
  {
    assert |m - {x}| == 0;
  }

  /** `.eq("code", …).single()`: a room only when exactly one stored room has the code */
  ghost function RoomWithCode(rooms: map<Id, Room>, code: string): (r: Option<Id>)
    ensures r.Some? <==> |RoomsWithCode(rooms, code)| == 1
    ensures r.Some? ==> r.value in rooms && rooms[r.value].code == code && RoomsWithCode(rooms, code) == {r.value}
  {
    var m := RoomsWithCode(rooms, code);
    if |m| == 1 then
      var rid :| rid in m;
      SingletonIs(m, rid);
      Some(rid)
    else None
  }

  /** The row joinRoom inserts for a player arriving when `index` players are already in the room */
  function NewMember(pid: Id, rid: Id, name: string, index: nat, now: int): Player {
    Player(pid, rid, name, PlayerColors[index % |PlayerColors|], PlayerAvatars[index % |PlayerAvatars|], false, None, now)
  }

  // ---------------------------------------------------------------------------------------------
  // Completing an enigma (advanceEnigma)

  /** Math.floor((now - started) / 1000): the whole seconds between two millisecond times */
  function SecondsBetween(started: int, now: int): (sec: int)
    ensures sec * 1000 <= now - started < sec * 1000 + 1000
  {
    (now - started) / 1000
  }

  /** The update of one progress row, matched by id */
  function WithCompletion(s: seq<EnigmaProgress>, id: Id, now: int, spent: int): (r: seq<EnigmaProgress>)
    ensures |r| == |s|
  {
    seq(|s|, k requires 0 <= k < |s| =>
      if s[k].id == id then s[k].(completedAt := Some(now), timeSpent := Some(spent)) else s[k])
  }

  /** advanceEnigma's first step: the row of enigma n is completed when `.single()` finds it */
  function CompleteEnigma(s: seq<EnigmaProgress>, rid: Id, n: int, now: int): (r: seq<EnigmaProgress>)
    ensures |r| == |s|
  {
    match Single(ProgressFor(s, rid, n))
    case None => s
    case Some(row) => WithCompletion(s, row.id, now, SecondsBetween(row.startedAt, now))
  }

  /**
   * Completion touches exactly the one matching row, recording the time and the whole seconds
   * since it started; with zero or several matching rows nothing changes
   */
  lemma CompleteEnigmaRows(s: seq<EnigmaProgress>, rid: Id, n: int, now: int, k: nat)
    requires ProgressIdsUnique(s) && k < |s|
    ensures CompleteEnigma(s, rid, n, now)[k]
         == if Single(ProgressFor(s, rid, n)) == Some(s[k])
            then s[k].(completedAt := Some(now), timeSpent := Some(SecondsBetween(s[k].startedAt, now)))
            else s[k]
  {
    var rows := ProgressFor(s, rid, n);
    if |rows| == 1 {
      var row := rows[0];
      assert row in rows;
      var k0 :| 0 <= k0 < |s| && s[k0] == row;
    }
  }

  /** Completion keeps the row ids, so the progress rules still hold */
  lemma CompleteEnigmaKeepsIds(s: seq<EnigmaProgress>, rid: Id, n: int, now: int)
    ensures forall k :: 0 <= k < |s| ==> CompleteEnigma(s, rid, n, now)[k].id == s[k].id
  {
  }

  /** An id nobody holds selects no row */
  lemma {:induction false} NoHolderNoMatch(s: seq<Player>, pid: Id)
    requires forall k :: 0 <= k < |s| ==> s[k].id != pid
    ensures PlayersWithId(s, pid) == []
  {
    if s != [] {
      NoHolderNoMatch(s[..|s| - 1], pid);
    }
  }

  /** The player holding an id is the one `getPlayer` finds, when ids are unique */
  lemma {:induction false} UniqueIdFindsPlayer(s: seq<Player>, j: nat)
    requires PlayerIdsUnique(s) && j < |s|
    ensures PlayersWithId(s, s[j].id) == [s[j]]
  {
    var init := s[..|s| - 1];
    if j == |s| - 1 {
      NoHolderNoMatch(init, s[j].id);
    } else {
      UniqueIdFindsPlayer(init, j);
    }
  }

  /** updateRoom's patch applied to one room row: every column the patch carries, the rest kept */
  function Patched(room: Room, patch: RoomPatch): Room {
    room.(code := if patch.code.Some? then patch.code.value else room.code,
          hostId := if patch.hostId.Some? then patch.hostId.value else room.hostId,
          status := if patch.status.Some? then patch.status.value else room.status,
          currentEnigma := if patch.currentEnigma.Some? then patch.currentEnigma.value else room.currentEnigma,
          createdAt := if patch.createdAt.Some? then patch.createdAt.value else room.createdAt)
  }

  // ---------------------------------------------------------------------------------------------
  // The store's operations, as functions of the tables

  /** The four tables and the id supply they share */
  datatype Tables = Tables(rooms: map<Id, Room>, players: seq<Player>, progress: seq<EnigmaProgress>,
                           chat: seq<ChatMessage>, nextId: nat)

  predicate Invariant(t: Tables) {
    TablesValid(t.rooms, t.players, t.progress, t.nextId)
  }

  /** What an operation that can throw returns, with the tables it leaves behind */
  datatype Outcome<T> = Outcome(result: Result<T, string>, tables: Tables)

  /** The host's row as createRoom inserts it into room rid */
  function HostRow(rid: Id, name: string, now: int): Player {
    Player(rid + 1, rid, name, PlayerColors[0], PlayerAvatars[0], true, None, now)
  }

  /**
   * createRoom: insert the room (waiting, enigma 0, capacity 4, no host), insert its creator,
   * delete the room again when that insert fails, then patch host_id; a failed patch is only
   * logged, and the returned room carries the host id either way
   */
  ghost function CreateRoomStep(t: Tables, playerName: string, code: string, now: int,
                                roomInsertError: Option<string>, playerInsertError: Option<string>,
                                hostPatchFails: bool): Outcome<(Room, Player)>
  {
    if roomInsertError.Some? then Outcome(Failure(roomInsertError.value), t)
    else
      var rid := t.nextId;
      var room := Room(rid, code, None, Waiting, 0, MaxPlayers, now);
      var inserted := t.rooms[rid := room];
      if playerInsertError.Some? then Outcome(Failure(playerInsertError.value), t.(rooms := inserted - {rid}))
      else
        var host := HostRow(rid, playerName, now);
        var patched := room.(hostId := Some(host.id));
        var stored := if hostPatchFails then inserted else inserted[rid := patched];
        Outcome(Success((patched, host)), t.(rooms := stored, players := t.players + [host], nextId := t.nextId + 2))
  }

  /**
   * joinRoom: `.single()` on the rooms with the upper-cased code, then the capacity check, then
   * the status check, then the insert of a non-host player with palette slot (count mod 4)
   */
  ghost function JoinRoomStep(t: Tables, code: string, playerName: string, now: int,
                              insertError: Option<string>): Outcome<(Room, Player)>
  {
    match RoomWithCode(t.rooms, Upper(code))
    case None => Outcome(Failure(NotFoundMessage), t)
    case Some(rid) =>
      var room := t.rooms[rid];
      var count := |PlayersIn(t.players, rid)|;
      if count >= room.maxPlayers then Outcome(Failure(FullMessage), t)
      else if room.status != Waiting then Outcome(Failure(StartedMessage), t)
      else if insertError.Some? then Outcome(Failure(insertError.value), t)
      else
        var p := NewMember(t.nextId, rid, playerName, count, now);
        Outcome(Success((room, p)), t.(players := t.players + [p], nextId := t.nextId + 1))
  }

  /** updateRoom: the room row, when there is one, takes the patch */
  function UpdateRoomStep(t: Tables, rid: Id, patch: RoomPatch): Tables {
    if rid in t.rooms then t.(rooms := t.rooms[rid := Patched(t.rooms[rid], patch)]) else t
  }

  /** A progress row for enigma n of room rid, started now and not completed */
  function ProgressRow(id: Id, rid: Id, n: int, now: int): EnigmaProgress {
    EnigmaProgress(id, rid, n, now, None, None)
  }

  /** startGame: status "playing" and enigma 1, then a progress row for enigma 1, with no check */
  function StartGameStep(t: Tables, rid: Id, now: int): Tables {
    var rooms := if rid in t.rooms then t.rooms[rid := t.rooms[rid].(status := Playing, currentEnigma := 1)] else t.rooms;
    t.(rooms := rooms, progress := t.progress + [ProgressRow(t.nextId, rid, 1, now)], nextId := t.nextId + 1)
  }

  /** advanceEnigma(n): complete n's row when `.single()` finds it, move the room to n + 1, add n + 1's row */
  function AdvanceEnigmaStep(t: Tables, rid: Id, n: int, now: int): Tables {
    var rooms := if rid in t.rooms then t.rooms[rid := t.rooms[rid].(currentEnigma := n + 1)] else t.rooms;
    t.(rooms := rooms, progress := CompleteEnigma(t.progress, rid, n, now) + [ProgressRow(t.nextId, rid, n + 1, now)],
       nextId := t.nextId + 1)
  }

  /** sendChatMessage: one more message row */
  function SendChatStep(t: Tables, rid: Id, pid: Id, playerName: string, playerColor: string, message: string, now: int): Tables {
    t.(chat := t.chat + [ChatMessage(t.nextId, rid, pid, playerName, playerColor, message, now)], nextId := t.nextId + 1)
  }

  // ---------------------------------------------------------------------------------------------
  // What the operations promise

  /** A failed host insert is rolled back: the room is deleted again and the tables are as before */
  lemma CreateRoomRollsBack(t: Tables, playerName: string, code: string, now: int, playerInsertError: string,
                            hostPatchFails: bool)
    requires Invariant(t)
    ensures CreateRoomStep(t, playerName, code, now, None, Some(playerInsertError), hostPatchFails)
         == Outcome(Failure(playerInsertError), t)
  {
    var rid := t.nextId;
    assert rid !in t.rooms;
    var room := Room(rid, code, None, Waiting, 0, MaxPlayers, now);
    assert t.rooms[rid := room] - {rid} == t.rooms;
  }

  /**
   * createRoom without errors: a fresh room, waiting for four players at enigma 0, whose only
   * player is its creator, host, with the first colour and avatar; the stored row keeps no
   * host when the host_id patch fails, while the returned room names the host in any case
   */
  lemma CreateRoomOpensRoom(t: Tables, playerName: string, code: string, now: int, hostPatchFails: bool)
    requires Invariant(t)
    ensures var o := CreateRoomStep(t, playerName, code, now, None, None, hostPatchFails);
      && o.result.Success?
      && var room, host := o.result.value.0, o.result.value.1;
      && room.id !in t.rooms && host.id != room.id
      && room.code == code && room.status == Waiting && room.currentEnigma == 0 && room.maxPlayers == 4
      && room.hostId == Some(host.id)
      && host.roomId == room.id && host.name == playerName && host.isHost && host.team.None?
      && host.color == PlayerColors[0] && host.avatar == PlayerAvatars[0]
      && o.tables.rooms == t.rooms[room.id := room.(hostId := if hostPatchFails then None else Some(host.id))]
      && o.tables.players == t.players + [host]
      && PlayersIn(o.tables.players, room.id) == [host]
      && o.tables.progress == t.progress && o.tables.chat == t.chat
  {
    var rid := t.nextId;
    var room := Room(rid, code, None, Waiting, 0, MaxPlayers, now);
    var host := HostRow(rid, playerName, now);
    var stored := room.(hostId := if hostPatchFails then None else Some(host.id));
    assert CreateRoomStep(t, playerName, code, now, None, None, hostPatchFails)
        == Outcome(Success((room.(hostId := Some(host.id)), host)),
                   t.(rooms := t.rooms[rid := stored], players := t.players + [host], nextId := rid + 2));
    OpenRoomKeepsInvariant(t.rooms, t.players, t.progress, rid, stored, host);
  }

  lemma CreateRoomKeepsInvariant(t: Tables, playerName: string, code: string, now: int,
                                 roomInsertError: Option<string>, playerInsertError: Option<string>, hostPatchFails: bool)
    requires Invariant(t)
    ensures Invariant(CreateRoomStep(t, playerName, code, now, roomInsertError, playerInsertError, hostPatchFails).tables)
  {
    if roomInsertError.None? {
      if playerInsertError.Some? {
        CreateRoomRollsBack(t, playerName, code, now, playerInsertError.value, hostPatchFails);
      } else {
        CreatedRoomKeepsInvariant(t, playerName, code, now, hostPatchFails);
      }
    }
  }

  lemma CreatedRoomKeepsInvariant(t: Tables, playerName: string, code: string, now: int, hostPatchFails: bool)
    requires Invariant(t)
    ensures Invariant(CreateRoomStep(t, playerName, code, now, None, None, hostPatchFails).tables)
  {
    var stored := CreatedTables(t, playerName, code, now, hostPatchFails);
    OpenedTablesValid(t, stored, HostRow(t.nextId, playerName, now));
  }

  /** The tables after a createRoom without errors, as one record update; `stored` is the room row */
  lemma CreatedTables(t: Tables, playerName: string, code: string, now: int, hostPatchFails: bool) returns (stored: Room)
    ensures stored.id == t.nextId && stored.maxPlayers == MaxPlayers
    ensures CreateRoomStep(t, playerName, code, now, None, None, hostPatchFails).tables
         == t.(rooms := t.rooms[t.nextId := stored], players := t.players + [HostRow(t.nextId, playerName, now)],
               nextId := t.nextId + 2)
  {
    var rid := t.nextId;
    var room := Room(rid, code, None, Waiting, 0, MaxPlayers, now);
    stored := if hostPatchFails then room else room.(hostId := Some(rid + 1));
    assert t.rooms[rid := room][rid := stored] == t.rooms[rid := stored];
  }

  /** OpenRoomKeepsInvariant on whole tables: the room row and its host added, two ids used */
  lemma OpenedTablesValid(t: Tables, room: Room, host: Player)
    requires Invariant(t)
    requires room.id == t.nextId && room.maxPlayers == MaxPlayers
    requires host.id == t.nextId + 1 && host.roomId == t.nextId && host.isHost
    requires host.color == PlayerColors[0] && host.avatar == PlayerAvatars[0]
    ensures Invariant(t.(rooms := t.rooms[t.nextId := room], players := t.players + [host], nextId := t.nextId + 2))
  {
    OpenRoomKeepsInvariant(t.rooms, t.players, t.progress, t.nextId, room, host);
  }

  /** Codes are compared upper-cased, so any casing of a code joins the same room */
  lemma JoinIgnoresCase(t: Tables, code: string, playerName: string, now: int, insertError: Option<string>)
    ensures JoinRoomStep(t, code, playerName, now, insertError) == JoinRoomStep(t, Upper(code), playerName, now, insertError)
  {
    UpperKeepsUppercase(Upper(code));
  }

  /**
   * joinRoom with a code held by exactly one room: refused as full at four players (the room
   * never holds more), else refused when the game has started, else the insert's own error
   */
  lemma JoinFoundRoomRefusals(t: Tables, code: string, playerName: string, now: int, insertError: Option<string>, rid: Id)
    requires RoomsKeyed(t.rooms, t.nextId) && Occupancy(t.players, t.rooms)
    requires RoomsWithCode(t.rooms, Upper(code)) == {rid}
    ensures var o := JoinRoomStep(t, code, playerName, now, insertError);
      var count := |PlayersIn(t.players, rid)|;
      && count <= MaxPlayers
      && (count == MaxPlayers ==> o == Outcome(Failure(FullMessage), t))
      && (count < MaxPlayers && t.rooms[rid].status != Waiting ==> o == Outcome(Failure(StartedMessage), t))
      && (count < MaxPlayers && t.rooms[rid].status == Waiting && insertError.Some? ==>
            o == Outcome(Failure(insertError.value), t))
  {
    assert rid in RoomsWithCode(t.rooms, Upper(code));
    assert RoomWithCode(t.rooms, Upper(code)) == Some(rid);
  }

  /**
   * joinRoom admitting a player to the one room with the code, below capacity and still
   * waiting: the player is the room's next one, not host, with the palette entries of that
   * position, and only the player table and the id supply change
   */
  lemma JoinFoundRoomAdmits(t: Tables, code: string, playerName: string, now: int, rid: Id) returns (p: Player)
    requires RoomsWithCode(t.rooms, Upper(code)) == {rid}
    requires |PlayersIn(t.players, rid)| < MaxPlayers && t.rooms[rid].maxPlayers == MaxPlayers && t.rooms[rid].status == Waiting
    ensures JoinRoomStep(t, code, playerName, now, None)
         == Outcome(Success((t.rooms[rid], p)), t.(players := t.players + [p], nextId := t.nextId + 1))
    ensures p.id == t.nextId && p.roomId == rid && p.name == playerName && !p.isHost && p.team.None?
    ensures p.color == PlayerColors[|PlayersIn(t.players, rid)|] && p.avatar == PlayerAvatars[|PlayersIn(t.players, rid)|]
    ensures PlayersIn(t.players + [p], rid) == PlayersIn(t.players, rid) + [p]
  {
    assert rid in RoomsWithCode(t.rooms, Upper(code));
    assert RoomWithCode(t.rooms, Upper(code)) == Some(rid);
    var count := |PlayersIn(t.players, rid)|;
    assert count % |PlayerColors| == count;
    p := NewMember(t.nextId, rid, playerName, count, now);
    PlayersInAppend(t.players, p, rid);
  }

  /** A code held by no room, or by several, is "not found" and changes nothing */
  lemma JoinUnknownCode(t: Tables, code: string, playerName: string, now: int, insertError: Option<string>)
    requires |RoomsWithCode(t.rooms, Upper(code))| != 1
    ensures JoinRoomStep(t, code, playerName, now, insertError) == Outcome(Failure(NotFoundMessage), t)
  {
  }

  lemma JoinRoomKeepsInvariant(t: Tables, code: string, playerName: string, now: int, insertError: Option<string>)
    requires Invariant(t)
    ensures Invariant(JoinRoomStep(t, code, playerName, now, insertError).tables)
  {
    var found := RoomWithCode(t.rooms, Upper(code));
    if found.Some? {
      var rid := found.value;
      JoinFoundRoomRefusals(t, code, playerName, now, insertError, rid);
      if |PlayersIn(t.players, rid)| < MaxPlayers && t.rooms[rid].status == Waiting && insertError.None? {
        var p := JoinFoundRoomAdmits(t, code, playerName, now, rid);
        AdmitKeepsInvariant(t.rooms, t.players, t.progress, t.nextId, p);
      }
    }
  }

  lemma UpdateRoomKeepsInvariant(t: Tables, rid: Id, patch: RoomPatch)
    requires Invariant(t)
    ensures Invariant(UpdateRoomStep(t, rid, patch))
  {
    if rid in t.rooms {
      RoomRowKeepsInvariant(t.rooms, t.players, t.progress, t.nextId, rid, Patched(t.rooms[rid], patch));
    }
  }

  /** Editing only the completion columns keeps how many rows each (room, enigma) pair has */
  lemma {:induction false} SameKeysSameCount(s: seq<EnigmaProgress>, u: seq<EnigmaProgress>, rid: Id, n: int)
    requires |s| == |u|
    requires forall k :: 0 <= k < |s| ==> s[k].roomId == u[k].roomId && s[k].enigmaNumber == u[k].enigmaNumber
    ensures |ProgressFor(s, rid, n)| == |ProgressFor(u, rid, n)|
  {
    if s != [] {
      SameKeysSameCount(s[..|s| - 1], u[..|u| - 1], rid, n);
    }
  }

  /**
   * startGame moves the room to "playing" at enigma 1 and adds one progress row for enigma 1,
   * whatever the room's status and whatever rows already exist; when there were none,
   * getEnigmaProgress(1) then finds the new row
   */
  lemma StartGameOpensEnigmaOne(t: Tables, rid: Id, now: int)
    requires rid in t.rooms
    ensures var u := StartGameStep(t, rid, now);
      && u.rooms == t.rooms[rid := t.rooms[rid].(status := Playing, currentEnigma := 1)]
      && ProgressFor(u.progress, rid, 1) == ProgressFor(t.progress, rid, 1) + [ProgressRow(t.nextId, rid, 1, now)]
      && (ProgressFor(t.progress, rid, 1) == [] ==> Single(ProgressFor(u.progress, rid, 1)) == Some(ProgressRow(t.nextId, rid, 1, now)))
      && u.players == t.players && u.chat == t.chat
  {
    ProgressForAppend(t.progress, ProgressRow(t.nextId, rid, 1, now), rid, 1);
  }

  /** startGame is not idempotent: a second call leaves two rows for enigma 1, and `.single()` then finds none */
  lemma StartGameTwice(t: Tables, rid: Id, now1: int, now2: int)
    requires rid in t.rooms && ProgressFor(t.progress, rid, 1) == []
    ensures var u := StartGameStep(StartGameStep(t, rid, now1), rid, now2);
      |ProgressFor(u.progress, rid, 1)| == 2 && Single(ProgressFor(u.progress, rid, 1)) == None
  {
    StartGameOpensEnigmaOne(t, rid, now1);
    StartGameOpensEnigmaOne(StartGameStep(t, rid, now1), rid, now2);
  }

  lemma StartGameKeepsInvariant(t: Tables, rid: Id, now: int)
    requires Invariant(t)
    ensures Invariant(StartGameStep(t, rid, now))
  {
    var rooms := t.rooms;
    if rid in t.rooms {
      RoomRowKeepsInvariant(t.rooms, t.players, t.progress, t.nextId, rid, t.rooms[rid].(status := Playing, currentEnigma := 1));
      rooms := t.rooms[rid := t.rooms[rid].(status := Playing, currentEnigma := 1)];
    }
    ProgressRowKeepsInvariant(rooms, t.players, t.progress, t.nextId, ProgressRow(t.nextId, rid, 1, now));
  }

  /**
   * advanceEnigma(n) sets the room's enigma to n + 1 (not one more than its current value) and
   * adds exactly one row for n + 1, however many there were
   */
  lemma AdvanceEnigmaMovesToNext(t: Tables, rid: Id, n: int, now: int)
    ensures var u := AdvanceEnigmaStep(t, rid, n, now);
      && u.rooms == (if rid in t.rooms then t.rooms[rid := t.rooms[rid].(currentEnigma := n + 1)] else t.rooms)
      && |ProgressFor(u.progress, rid, n + 1)| == |ProgressFor(t.progress, rid, n + 1)| + 1
      && u.players == t.players && u.chat == t.chat
  {
    var done := CompleteEnigma(t.progress, rid, n, now);
    SameKeysSameCount(t.progress, done, rid, n + 1);
    ProgressForAppend(done, ProgressRow(t.nextId, rid, n + 1, now), rid, n + 1);
  }

  /** A selection whose rows are left as they were, in a table whose keys are kept, is unchanged */
  lemma {:induction false} UntouchedSelection(s: seq<EnigmaProgress>, u: seq<EnigmaProgress>, rid: Id, m: int)
    requires |s| == |u|
    requires forall k :: 0 <= k < |s| ==> s[k].roomId == u[k].roomId && s[k].enigmaNumber == u[k].enigmaNumber
    requires forall k :: 0 <= k < |s| && s[k].roomId == rid && s[k].enigmaNumber == m ==> u[k] == s[k]
    ensures ProgressFor(u, rid, m) == ProgressFor(s, rid, m)
  {
    if s != [] {
      UntouchedSelection(s[..|s| - 1], u[..|u| - 1], rid, m);
    }
  }

  /**
   * With distinct progress ids (as the invariant keeps them), advanceEnigma(n) leaves the rows of
   * enigma n + 1 as they were and appends the new one, started now and not completed
   */
  lemma AdvanceEnigmaAddsRow(t: Tables, rid: Id, n: int, now: int)
    requires ProgressIdsUnique(t.progress)
    ensures ProgressFor(AdvanceEnigmaStep(t, rid, n, now).progress, rid, n + 1)
         == ProgressFor(t.progress, rid, n + 1) + [ProgressRow(t.nextId, rid, n + 1, now)]
  {
    var done := CompleteEnigma(t.progress, rid, n, now);
    forall k | 0 <= k < |t.progress|
      ensures t.progress[k].roomId == done[k].roomId && t.progress[k].enigmaNumber == done[k].enigmaNumber
      ensures t.progress[k].enigmaNumber == n + 1 ==> done[k] == t.progress[k]
    {
      CompleteEnigmaRows(t.progress, rid, n, now, k);
      if Single(ProgressFor(t.progress, rid, n)) == Some(t.progress[k]) {
        assert t.progress[k] in ProgressFor(t.progress, rid, n);
      }
    }
    UntouchedSelection(t.progress, done, rid, n + 1);
    ProgressForAppend(done, ProgressRow(t.nextId, rid, n + 1, now), rid, n + 1);
  }

  /**
   * advanceEnigma is not idempotent: called twice with the same n it leaves the room at n + 1
   * with two rows for n + 1, so getEnigmaProgress(n + 1) finds none
   */
  lemma AdvanceEnigmaTwice(t: Tables, rid: Id, n: int, now1: int, now2: int)
    requires rid in t.rooms && ProgressFor(t.progress, rid, n + 1) == []
    ensures var u := AdvanceEnigmaStep(AdvanceEnigmaStep(t, rid, n, now1), rid, n, now2);
      && u.rooms[rid].currentEnigma == n + 1
      && |ProgressFor(u.progress, rid, n + 1)| == 2
      && Single(ProgressFor(u.progress, rid, n + 1)) == None
  {
    AdvanceEnigmaMovesToNext(t, rid, n, now1);
    AdvanceEnigmaMovesToNext(AdvanceEnigmaStep(t, rid, n, now1), rid, n, now2);
  }

  lemma AdvanceEnigmaKeepsInvariant(t: Tables, rid: Id, n: int, now: int)
    requires Invariant(t)
    ensures Invariant(AdvanceEnigmaStep(t, rid, n, now))
  {
    var done := CompleteEnigma(t.progress, rid, n, now);
    CompleteEnigmaKeepsIds(t.progress, rid, n, now);
    assert TablesValid(t.rooms, t.players, done, t.nextId);
    var rooms := t.rooms;
    if rid in t.rooms {
      RoomRowKeepsInvariant(t.rooms, t.players, done, t.nextId, rid, t.rooms[rid].(currentEnigma := n + 1));
      rooms := t.rooms[rid := t.rooms[rid].(currentEnigma := n + 1)];
    }
    ProgressRowKeepsInvariant(rooms, t.players, done, t.nextId, ProgressRow(t.nextId, rid, n + 1, now));
  }

  /** A message shows up at the end of its own room's conversation and in no other */
  lemma SendChatAppendsToRoom(t: Tables, rid: Id, pid: Id, playerName: string, playerColor: string, message: string,
                              now: int, other: Id)
    ensures var u := SendChatStep(t, rid, pid, playerName, playerColor, message, now);
      MessagesIn(u.chat, other)
      == MessagesIn(t.chat, other) + (if other == rid then [ChatMessage(t.nextId, rid, pid, playerName, playerColor, message, now)] else [])
  {
    var m := ChatMessage(t.nextId, rid, pid, playerName, playerColor, message, now);
    assert (t.chat + [m])[..|t.chat|] == t.chat;
  }

  // ---------------------------------------------------------------------------------------------
  // The store

  /** GameStore's static methods, over the four tables and the id supply they share */
  class GameStore {
    var rooms: map<Id, Room>
    var players: seq<Player>
    var progress: seq<EnigmaProgress>
    var chat: seq<ChatMessage>
    var nextId: nat

    function State(): Tables
      reads this
    {
      Tables(rooms, players, progress, chat, nextId)
    }

    ghost predicate Valid()
      reads this
    {
      Invariant(State())
    }

    constructor ()
      ensures Valid() && State() == Tables(map[], [], [], [], 0)
    {
      rooms, players, progress, chat, nextId := map[], [], [], [], 0;
    }

    /** getRoom: the room stored under the id, if any */
    function GetRoom(rid: Id): (r: Option<Room>)
      reads this
      ensures r.Some? <==> rid in rooms
      ensures r.Some? ==> r.value == rooms[rid]
    {
      if rid in rooms then Some(rooms[rid]) else None
    }

    /** getPlayers: every player of the room and nobody else, in join order */
    function GetPlayers(rid: Id): (r: seq<Player>)
      reads this
      ensures forall p :: p in r <==> p in players && p.roomId == rid
    {
      PlayersInMembers(players, rid);
      PlayersIn(players, rid)
    }

    /** getPlayer: a player only when exactly one row has the id */
    function GetPlayer(pid: Id): (r: Option<Player>)
      reads this
      ensures r.Some? <==> |PlayersWithId(players, pid)| == 1
      ensures r.Some? ==> r.value in players && r.value.id == pid
    {
      Single(PlayersWithId(players, pid))
    }

    /** getChatMessages: the room's messages, oldest first */
    function GetChatMessages(rid: Id): (r: seq<ChatMessage>)
      reads this
      ensures forall m :: m in r <==> m in chat && m.roomId == rid
    {
      MessagesIn(chat, rid)
    }

    /** getEnigmaProgress: a row only when exactly one row exists for the room and enigma */
    function GetEnigmaProgress(rid: Id, n: int): (r: Option<EnigmaProgress>)
      reads this
      ensures r.Some? <==> |ProgressFor(progress, rid, n)| == 1
      ensures r.Some? ==> r.value in progress && r.value.roomId == rid && r.value.enigmaNumber == n
    {
      var rows := ProgressFor(progress, rid, n);
      if |rows| == 1 then assert rows[0] in rows; Single(rows) else None
    }

    method CreateRoom(playerName: string, code: string, now: int,
                      roomInsertError: Option<string>, playerInsertError: Option<string>, hostPatchFails: bool)
      returns (r: Result<(Room, Player), string>)
      requires Valid()
      modifies this
      ensures Valid()
      ensures var o := CreateRoomStep(old(State()), playerName, code, now, roomInsertError, playerInsertError, hostPatchFails);
        r == o.result && State() == o.tables
    {
      ghost var t := State();
      CreateRoomKeepsInvariant(t, playerName, code, now, roomInsertError, playerInsertError, hostPatchFails);
      if roomInsertError.Some? {
        return Failure(roomInsertError.value);
      }
      // the room row, inserted without a host
      var rid := nextId;
      var room := Room(rid, code, None, Waiting, 0, MaxPlayers, now);
      rooms := rooms[rid := room];
      if playerInsertError.Some? {
        // rollback: delete the room again
        rooms := rooms - {rid};
        return Failure(playerInsertError.value);
      }
      // the creator's row, then the host_id patch
      var host := HostRow(rid, playerName, now);
      players := players + [host];
      nextId := nextId + 2;
      var patched := room.(hostId := Some(host.id));
      if !hostPatchFails {
        rooms := rooms[rid := patched];
      }
      r := Success((patched, host));
    }

    method JoinRoom(code: string, playerName: string, now: int, insertError: Option<string>)
      returns (r: Result<(Room, Player), string>)
      requires Valid()
      modifies this
      ensures Valid()
      ensures var o := JoinRoomStep(old(State()), code, playerName, now, insertError);
        r == o.result && State() == o.tables
    {
      JoinRoomKeepsInvariant(State(), code, playerName, now, insertError);
      var matching := RoomsWithCode(rooms, Upper(code));
      if |matching| != 1 {
        return Failure(NotFoundMessage);
      }
      var rid :| rid in matching;
      SingletonIs(matching, rid);
      assert RoomWithCode(rooms, Upper(code)) == Some(rid);
      var room := rooms[rid];
      var count := |PlayersIn(players, rid)|;
      if count >= room.maxPlayers {
        return Failure(FullMessage);
      }
      if room.status != Waiting {
        return Failure(StartedMessage);
      }
      if insertError.Some? {
        return Failure(insertError.value);
      }
      var p := NewMember(nextId, rid, playerName, count, now);
      players := players + [p];
      nextId := nextId + 1;
      r := Success((room, p));
    }

    method UpdateRoom(rid: Id, patch: RoomPatch)
      requires Valid()
      modifies this
      ensures Valid() && State() == UpdateRoomStep(old(State()), rid, patch)
    {
      UpdateRoomKeepsInvariant(State(), rid, patch);
      if rid in rooms {
        rooms := rooms[rid := Patched(rooms[rid], patch)];
      }
    }

    method StartGame(rid: Id, now: int)
      requires Valid()
      modifies this
      ensures Valid() && State() == StartGameStep(old(State()), rid, now)
    {
      StartGameKeepsInvariant(State(), rid, now);
      if rid in rooms {
        rooms := rooms[rid := rooms[rid].(status := Playing, currentEnigma := 1)];
      }
      progress := progress + [ProgressRow(nextId, rid, 1, now)];
      nextId := nextId + 1;
    }

    method AdvanceEnigma(rid: Id, n: int, now: int)
      requires Valid()
      modifies this
      ensures Valid() && State() == AdvanceEnigmaStep(old(State()), rid, n, now)
    {
      AdvanceEnigmaKeepsInvariant(State(), rid, n, now);
      var found := Single(ProgressFor(progress, rid, n));
      if found.Some? {
        var row := found.value;
        progress := WithCompletion(progress, row.id, now, SecondsBetween(row.startedAt, now));
      }
      var next := n + 1;
      if rid in rooms {
        rooms := rooms[rid := rooms[rid].(currentEnigma := next)];
      }
      progress := progress + [ProgressRow(nextId, rid, next, now)];
      nextId := nextId + 1;
    }

    /** assignTeams: walk the room's players in join order, "labo" below ceil(k/2), else "oncopole" */
    method AssignTeams(rid: Id)
      requires Valid()
      modifies this
      ensures Valid() && State() == old(State()).(players := TeamsAssigned(old(players), rid))
    {
      var roster := PlayersIn(players, rid);
      var half := Half(|roster|);
      ghost var s0 := players;
      var i := 0;
      while i < |roster|
        invariant 0 <= i <= |roster|
        invariant players == Labelled(s0, rid, half, i)
        invariant rooms == old(rooms) && progress == old(progress) && chat == old(chat) && nextId == old(nextId)
      {
        var team := if i < half then Labo else Oncopole;
        LabelStep(s0, rid, half, i);
        players := SetTeam(players, roster[i].id, team);
        i := i + 1;
      }
      TeamsKeepInvariant(rooms, s0, progress, nextId, players);
    }

    method SendChatMessage(rid: Id, pid: Id, playerName: string, playerColor: string, message: string, now: int)
      requires Valid()
      modifies this
      ensures Valid() && State() == SendChatStep(old(State()), rid, pid, playerName, playerColor, message, now)
    {
      chat := chat + [ChatMessage(nextId, rid, pid, playerName, playerColor, message, now)];
      nextId := nextId + 1;
    }
  }
}
