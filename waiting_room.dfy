/**
 * app/auth/login/page.tsx: the waiting room. It redirects away when there is no session or the
 * game is already playing, shows the start button to the host only, enabled for two to four
 * players, and its start handler checks the session, the host and the player count before
 * calling the store's startGame.
 */
module WaitingRoom {
  import opened Wrappers
  import opened Store

  const HomeRoute: string := "/"
  const BriefingRoute: string := "/briefing"
  const NotHostAlert: string := "Seul l'hôte peut démarrer la partie"
  const TooFewAlert: string := "Il faut au moins 2 joueurs pour commencer"
  const StartErrorAlert: string := "Erreur lors du démarrage de la partie"

  /** isHost: whether the room's host_id names the current player (the is_host flag is not read) */
  predicate IsHost(room: Room, current: Player) {
    room.hostId == Some(current.id)
  }

  /** canStart: between two and four players */
  predicate CanStart(count: nat) {
    2 <= count <= 4
  }

  /** The start button is shown to the host and enabled when canStart holds and no start is under way */
  predicate StartEnabled(count: nat, isStarting: bool) {
    CanStart(count) && !isStarting
  }

  /** The redirect effect: home without a session, the briefing once the game is playing */
  function Redirect(room: Option<Room>, current: Option<Player>): (r: Option<string>)
    ensures room.None? || current.None? ==> r == Some(HomeRoute)
    ensures room.Some? && current.Some? ==> (r.Some? <==> room.value.status == Playing)
    ensures r.Some? ==> r.value in {HomeRoute, BriefingRoute}
  {
    if room.None? || current.None? then Some(HomeRoute)
    else if room.value.status == Playing then Some(BriefingRoute)
    else None
  }

  /** What startGame's checks decide, in their order */
  datatype Gate = NoSession | NotHost | TooFew | Proceed

  function StartGate(room: Option<Room>, current: Option<Player>, count: nat): (g: Gate)
    ensures g == Proceed <==> room.Some? && current.Some? && IsHost(room.value, current.value) && count >= 2
    ensures room.Some? && current.Some? && !IsHost(room.value, current.value) ==> g == NotHost
  {
    if room.None? || current.None? then NoSession
    else if !IsHost(room.value, current.value) then NotHost
    else if count < 2 then TooFew
    else Proceed
  }

  /** The upper bound of four is only the button's: the handler itself lets a fifth player through */
  lemma GateIgnoresUpperBound(room: Room, current: Player)
    requires IsHost(room, current)
    ensures StartGate(Some(room), Some(current), 5) == Proceed && !CanStart(5)
  {
  }

  /** A click on an enabled button, by the host, always passes the handler's checks */
  lemma EnabledButtonProceeds(room: Room, current: Player, count: nat, isStarting: bool)
    requires IsHost(room, current) && StartEnabled(count, isStarting)
    ensures StartGate(Some(room), Some(current), count) == Proceed
  {
  }

  /**
   * Host status follows host_id: when createRoom's host_id patch fails, its creator carries the
   * is_host flag but is not the host here, and can never start the game; when the patch
   * succeeds the creator is the host
   */
  lemma CreatorIsHostIffPatched(t: Tables, playerName: string, code: string, now: int, hostPatchFails: bool)
    ensures var o := CreateRoomStep(t, playerName, code, now, None, None, hostPatchFails);
      var host := o.result.value.1;
      && o.result.Success? && host.isHost && host.roomId in o.tables.rooms
      && (IsHost(o.tables.rooms[host.roomId], host) <==> !hostPatchFails)
      && (hostPatchFails ==> forall n: nat :: StartGate(Some(o.tables.rooms[host.roomId]), Some(host), n) == NotHost)
  {
    var rid := t.nextId;
    var room := Room(rid, code, None, Waiting, 0, MaxPlayers, now);
    var host := HostRow(rid, playerName, now);
    var stored := if hostPatchFails then room else room.(hostId := Some(host.id));
    assert CreateRoomStep(t, playerName, code, now, None, None, hostPatchFails).tables.rooms == t.rooms[rid := stored];
    if hostPatchFails {
      assert !IsHost(stored, host);
      forall n: nat ensures StartGate(Some(stored), Some(host), n) == NotHost {
      }
    }
  }

  /** What a click on the start button leads to */
  datatype StartResult = Ignored | Alerted(message: string) | Navigated(route: string)

  /** The waiting room's own state */
  class WaitingRoomPage {
    var isStarting: bool

    constructor ()
      ensures !isStarting
    {
      isStarting := false;
    }

    /**
     * startGame: the checks, then isStarting is set and the store's startGame runs; the page
     * navigates to the briefing, or on a thrown error alerts and clears isStarting
     */
    method StartGame(store: GameStore, room: Option<Room>, current: Option<Player>, players: seq<Player>,
                     now: int, storeThrows: bool) returns (result: StartResult)
      requires store.Valid()
      modifies this, store
      ensures store.Valid()
      ensures var gate := StartGate(room, current, |players|);
        && (gate == NoSession ==> result == Ignored)
        && (gate == NotHost ==> result == Alerted(NotHostAlert))
        && (gate == TooFew ==> result == Alerted(TooFewAlert))
        && (gate != Proceed ==> isStarting == old(isStarting) && store.State() == old(store.State()))
        && (gate == Proceed && storeThrows ==>
              result == Alerted(StartErrorAlert) && !isStarting && store.State() == old(store.State()))
        && (gate == Proceed && !storeThrows ==>
              result == Navigated(BriefingRoute) && isStarting
              && store.State() == StartGameStep(old(store.State()), room.value.id, now))
    {
      if room.None? || current.None? {
        return Ignored;
      }
      if room.value.hostId != Some(current.value.id) {
        return Alerted(NotHostAlert);
      }
      if |players| < 2 {
        return Alerted(TooFewAlert);
      }
      isStarting := true;
      if storeThrows {
        isStarting := false;
        return Alerted(StartErrorAlert);
      }
      store.StartGame(room.value.id, now);
      result := Navigated(BriefingRoute);
    }
  }
}
