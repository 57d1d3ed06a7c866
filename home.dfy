/**
 * app/page.tsx: the home page. Its two forms share the name field; creating checks the name,
 * joining checks the name and then the code, and only then is the store called, with the
 * trimmed inputs. The code field upper-cases what is typed. The busy flags are set around
 * the store call and cleared whatever its outcome.
 */
module Home {
  import opened Wrappers
  import opened Text
  import opened Store

  const LobbyRoute: string := "/auth/login"
  const NameMissing: string := "Veuillez entrer votre nom"
  const CodeMissing: string := "Veuillez entrer un code de partie"
  const CreateFailed: string := "Erreur lors de la création de la partie"
  const JoinFallback: string := "Impossible de rejoindre cette partie"

  /** `!s.trim()`: the field is empty once trimmed */
  predicate Blank(s: string) {
    Trim(s) == []
  }

  /** The join form's checks, name first, then code */
  function JoinValidation(playerName: string, roomCode: string): (e: Option<string>)
    ensures e.None? <==> !AllWhitespace(playerName) && !AllWhitespace(roomCode)
    ensures AllWhitespace(playerName) ==> e == Some(NameMissing)
    ensures !AllWhitespace(playerName) && AllWhitespace(roomCode) ==> e == Some(CodeMissing)
  {
    TrimEmptyIff(playerName);
    TrimEmptyIff(roomCode);
    if Blank(playerName) then Some(NameMissing)
    else if Blank(roomCode) then Some(CodeMissing)
    else None
  }

  /** `err.message || fallback`: the thrown message, or the fallback when it is empty */
  function JoinErrorText(message: string): (e: string)
    ensures e != []
    ensures message != [] ==> e == message
  {
    if message == [] then JoinFallback else message
  }

  /**
   * Every refusal the store raises itself has a message, so the page shows it verbatim; only an
   * insert error with an empty message falls back to the generic text
   */
  lemma JoinRefusalShown(t: Tables, code: string, playerName: string, now: int, insertError: Option<string>)
    requires insertError != Some([])
    ensures var o := JoinRoomStep(t, code, playerName, now, insertError);
      o.result.Failure? ==> JoinErrorText(o.result.error) == o.result.error
  {
  }

  lemma UpperAppend(a: string, b: string)
    ensures Upper(a + b) == Upper(a) + Upper(b)
  {
  }

  lemma UpperKeepsWhitespace(w: string)
    requires AllWhitespace(w)
    ensures AllWhitespace(Upper(w))
  {
  }

  /**
   * A code typed in any letter case and with whitespace around it reaches the same room: the
   * field upper-cases it, the handler trims it, and the store upper-cases it again
   */
  lemma TypedCodeJoinsSameRoom(t: Tables, w1: string, c: string, w2: string, playerName: string, now: int,
                               insertError: Option<string>)
    requires AllWhitespace(w1) && AllWhitespace(w2)
    requires c != [] && !IsWhitespace(c[0]) && !IsWhitespace(c[|c| - 1])
    ensures JoinRoomStep(t, Trim(Upper(w1 + c + w2)), playerName, now, insertError)
         == JoinRoomStep(t, c, playerName, now, insertError)
  {
    UpperAppend(w1 + c, w2);
    UpperAppend(w1, c);
    UpperKeepsWhitespace(w1);
    UpperKeepsWhitespace(w2);
    var u := Upper(c);
    assert !IsWhitespace(u[0]) && !IsWhitespace(u[|u| - 1]);
    TrimPadded(Upper(w1), u, Upper(w2));
    JoinIgnoresCase(t, c, playerName, now, insertError);
  }

  /** The home page's state */
  class HomePage {
    var playerName: string
    var roomCode: string
    var error: string
    var isCreating: bool
    var isJoining: bool

    constructor ()
      ensures playerName == "" && roomCode == "" && error == "" && !isCreating && !isJoining
    {
      playerName, roomCode, error, isCreating, isJoining := "", "", "", false, false;
    }

    /** Typing a name clears the error */
    method SetPlayerName(value: string)
      modifies this
      ensures playerName == value && error == ""
      ensures roomCode == old(roomCode) && isCreating == old(isCreating) && isJoining == old(isJoining)
    {
      playerName := value;
      error := "";
    }

    /** Typing a code stores it upper-cased and clears the error */
    method SetRoomCode(value: string)
      modifies this
      ensures roomCode == Upper(value) && HasNoLowercase(roomCode) && error == ""
      ensures playerName == old(playerName) && isCreating == old(isCreating) && isJoining == old(isJoining)
    {
      roomCode := Upper(value);
      error := "";
    }

    /** The part of handleCreateRoom after the name check: busy flag, store call, feedback */
    method SubmitCreate(store: GameStore, name: string, code: string, now: int, roomInsertError: Option<string>,
                        playerInsertError: Option<string>, hostPatchFails: bool) returns (nav: Option<string>)
      requires store.Valid()
      modifies this, store
      ensures store.Valid()
      ensures playerName == old(playerName) && roomCode == old(roomCode) && isJoining == old(isJoining)
      ensures var o := CreateRoomStep(old(store.State()), name, code, now, roomInsertError, playerInsertError, hostPatchFails);
        && store.State() == o.tables && !isCreating
        && (o.result.Success? ==> nav == Some(LobbyRoute) && error == "")
        && (o.result.Failure? ==> nav == None && error == CreateFailed)
    {
      isCreating := true;
      error := "";
      var r := store.CreateRoom(name, code, now, roomInsertError, playerInsertError, hostPatchFails);
      if r.Success? {
        nav := Some(LobbyRoute);
      } else {
        error := CreateFailed;
        nav := None;
      }
      isCreating := false;
    }

    /**
     * handleCreateRoom: a blank name sets its message and calls nothing; otherwise the store
     * creates a room for the trimmed name and the page goes to the lobby, or shows the generic
     * failure whatever the store's error was
     */
    method HandleCreateRoom(store: GameStore, code: string, now: int, roomInsertError: Option<string>,
                            playerInsertError: Option<string>, hostPatchFails: bool) returns (nav: Option<string>)
      requires store.Valid()
      modifies this, store
      ensures store.Valid()
      ensures playerName == old(playerName) && roomCode == old(roomCode) && isJoining == old(isJoining)
      ensures Blank(old(playerName)) ==>
        nav == None && error == NameMissing && isCreating == old(isCreating) && store.State() == old(store.State())
      ensures !Blank(old(playerName)) ==>
        var o := CreateRoomStep(old(store.State()), Trim(old(playerName)), code, now, roomInsertError, playerInsertError, hostPatchFails);
        && store.State() == o.tables && !isCreating
        && (o.result.Success? ==> nav == Some(LobbyRoute) && error == "")
        && (o.result.Failure? ==> nav == None && error == CreateFailed)
    {
      if Trim(playerName) == [] {
        error := NameMissing;
        return None;
      }
      nav := SubmitCreate(store, Trim(playerName), code, now, roomInsertError, playerInsertError, hostPatchFails);
    }

    /** The part of handleJoinRoom after the checks: busy flag, store call, feedback */
    method SubmitJoin(store: GameStore, code: string, name: string, now: int, insertError: Option<string>)
      returns (nav: Option<string>)
      requires store.Valid()
      modifies this, store
      ensures store.Valid()
      ensures playerName == old(playerName) && roomCode == old(roomCode) && isCreating == old(isCreating)
      ensures var o := JoinRoomStep(old(store.State()), code, name, now, insertError);
        && store.State() == o.tables && !isJoining
        && (o.result.Success? ==> nav == Some(LobbyRoute) && error == "")
        && (o.result.Failure? ==> nav == None && error == JoinErrorText(o.result.error))
    {
      isJoining := true;
      error := "";
      var r := store.JoinRoom(code, name, now, insertError);
      if r.Success? {
        nav := Some(LobbyRoute);
      } else {
        error := JoinErrorText(r.error);
        nav := None;
      }
      isJoining := false;
    }

    /**
     * handleJoinRoom: the name check, then the code check, each with its own message and no
     * store call; otherwise the store joins the trimmed code with the trimmed name and the page
     * goes to the lobby, or shows the thrown message (the fallback when it is empty)
     */
    method HandleJoinRoom(store: GameStore, now: int, insertError: Option<string>) returns (nav: Option<string>)
      requires store.Valid()
      modifies this, store
      ensures store.Valid()
      ensures playerName == old(playerName) && roomCode == old(roomCode) && isCreating == old(isCreating)
      ensures var v := JoinValidation(old(playerName), old(roomCode));
        && (v.Some? ==> nav == None && error == v.value && isJoining == old(isJoining) && store.State() == old(store.State()))
        && (v.None? ==>
              var o := JoinRoomStep(old(store.State()), Trim(old(roomCode)), Trim(old(playerName)), now, insertError);
              && store.State() == o.tables && !isJoining
              && (o.result.Success? ==> nav == Some(LobbyRoute) && error == "")
              && (o.result.Failure? ==> nav == None && error == JoinErrorText(o.result.error)))
    {
      if Trim(playerName) == [] {
        error := NameMissing;
        return None;
      }
      if Trim(roomCode) == [] {
        error := CodeMissing;
        return None;
      }
      nav := SubmitJoin(store, Trim(roomCode), Trim(playerName), now, insertError);
    }
  }
}
