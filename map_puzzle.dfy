/**
 * app/enigme-3/page.tsx: the map puzzle. Six map pieces are selected or deselected one click at
 * a time, and the answer form accepts when the whole map is assembled and the trimmed,
 * upper-cased location is the garden's name. Navigation is returned as the target path.
 */
module MapPuzzle {
  import opened Wrappers
  import opened Text

  const CorrectLocation: string := "JARDIN DES PLANTES"
  const TotalPieces: nat := 6
  const MapRoute: string := "/enigme-4"
  const IncompleteMapMessage: string := "Vous devez d'abord reconstituer toute la carte !"
  const WrongPlaceMessage: string := "Ce n'est pas le bon lieu. Analysez les indices de la carte."

  /** The ids of the six pieces the page offers */
  predicate IsPieceId(id: int) {
    1 <= id <= 6
  }

  predicate NoDup(s: seq<int>) {
    forall i, j :: 0 <= i < j < |s| ==> s[i] != s[j]
  }

  /** `filter((p) => p !== id)`: every occurrence of id removed, the rest in order */
  function Without(s: seq<int>, id: int): (r: seq<int>)
    ensures forall x :: x in r <==> x in s && x != id
    ensures |r| <= |s|
  {
    if s == [] then []
    else if s[|s| - 1] == id then Without(s[..|s| - 1], id)
    else Without(s[..|s| - 1], id) + [s[|s| - 1]]
  }

  /** togglePiece's new selection: the id removed when present, appended otherwise */
  function Toggled(s: seq<int>, id: int): (r: seq<int>)
    ensures forall x :: x in r <==> if x == id then id !in s else x in s
  {
    if id in s then Without(s, id) else s + [id]
  }

  lemma {:induction false} WithoutKeepsNoDup(s: seq<int>, id: int)
    requires NoDup(s)
    ensures NoDup(Without(s, id))
  {
    if s != [] {
      var init := s[..|s| - 1];
      assert NoDup(init);
      WithoutKeepsNoDup(init, id);
      assert s[|s| - 1] !in init;
    }
  }

  /** A toggle flips the membership of its id and of nothing else */
  lemma ToggleFlips(s: seq<int>, id: int, x: int)
    ensures x in Toggled(s, id) <==> (if x == id then x !in s else x in s)
  {
  }

  /** Starting from no duplicates, a toggle never creates one */
  lemma ToggleKeepsNoDup(s: seq<int>, id: int)
    requires NoDup(s)
    ensures NoDup(Toggled(s, id))
  {
    if id in s {
      WithoutKeepsNoDup(s, id);
    }
  }

  /** Toggling the same piece twice gives back the same set of pieces; the order may change */
  lemma ToggleTwice(s: seq<int>, id: int)
    ensures forall x :: x in Toggled(Toggled(s, id), id) <==> x in s
  {
    forall x ensures x in Toggled(Toggled(s, id), id) <==> x in s {
      ToggleFlips(s, id, x);
      ToggleFlips(Toggled(s, id), id, x);
    }
  }

  /** Without duplicates, a selection has as many pieces as distinct ids */
  lemma {:induction false} DistinctCount(s: seq<int>)
    requires NoDup(s)
    ensures |set x | x in s| == |s|
  {
    if s != [] {
      var init := s[..|s| - 1];
      assert NoDup(init);
      DistinctCount(init);
      assert (set x | x in s) == (set x | x in init) + {s[|s| - 1]};
    }
  }

  /** Six distinct pieces out of the six offered is the whole map */
  lemma SixMeansAll(s: seq<int>)
    requires NoDup(s) && forall x :: x in s ==> IsPieceId(x)
    ensures |s| == TotalPieces <==> (set x | x in s) == {1, 2, 3, 4, 5, 6}
  {
    var chosen := set x | x in s;
    var all: set<int> := {1, 2, 3, 4, 5, 6};
    DistinctCount(s);
    assert chosen <= all;
    assert |all| == 6;
    if |s| == TotalPieces {
      assert |all - chosen| == |all| - |chosen|;
    }
  }

  /** The submit decision: the target path, or the error shown, in the page's order */
  function Submit(location: string, selected: seq<int>): (r: Result<string, string>)
    ensures r.Success? <==> Normalize(location) == CorrectLocation && |selected| == TotalPieces
    ensures r.Success? ==> r.value == MapRoute
    ensures |selected| != TotalPieces ==> r == Failure(IncompleteMapMessage)
    ensures |selected| == TotalPieces && Normalize(location) != CorrectLocation ==> r == Failure(WrongPlaceMessage)
  {
    if Normalize(location) == CorrectLocation && |selected| == TotalPieces then Success(MapRoute)
    else if |selected| != TotalPieces then Failure(IncompleteMapMessage)
    else Failure(WrongPlaceMessage)
  }

  /** The location is accepted in any letter case and with any surrounding whitespace */
  lemma AcceptsPaddedLocation(w1: string, t: string, w2: string)
    requires AllWhitespace(w1) && AllWhitespace(w2) && Upper(t) == CorrectLocation
    ensures Normalize(w1 + t + w2) == CorrectLocation
  {
    NormalizePadded(w1, t, w2);
  }

  /** The page's state: the selected pieces in click order, the location field, hint and error */
  class Enigme3Page {
    var selectedPieces: seq<int>
    var location: string
    var showHint: bool
    var error: string

    ghost predicate Valid()
      reads this
    {
      NoDup(selectedPieces) && forall x :: x in selectedPieces ==> IsPieceId(x)
    }

    constructor ()
      ensures Valid() && selectedPieces == [] && location == "" && !showHint && error == ""
    {
      selectedPieces, location, showHint, error := [], "", false, "";
    }

    /** A click on one of the six pieces */
    method TogglePiece(id: int)
      requires Valid() && IsPieceId(id)
      modifies this
      ensures Valid()
      ensures selectedPieces == Toggled(old(selectedPieces), id)
      ensures location == old(location) && showHint == old(showHint) && error == old(error)
    {
      ToggleKeepsNoDup(selectedPieces, id);
      if id in selectedPieces {
        selectedPieces := Without(selectedPieces, id);
      } else {
        selectedPieces := selectedPieces + [id];
      }
    }

    method SetLocation(value: string)
      modifies this
      ensures location == value
      ensures selectedPieces == old(selectedPieces) && showHint == old(showHint) && error == old(error)
    {
      location := value;
    }

    method ToggleHint()
      modifies this
      ensures showHint == !old(showHint)
      ensures selectedPieces == old(selectedPieces) && location == old(location) && error == old(error)
    {
      showHint := !showHint;
    }

    /** handleSubmit: navigate, or set the error and stay */
    method HandleSubmit() returns (nav: Option<string>)
      modifies this
      ensures var r := Submit(old(location), old(selectedPieces));
        && (r.Success? ==> nav == Some(r.value) && error == old(error))
        && (r.Failure? ==> nav == None && error == r.error)
      ensures selectedPieces == old(selectedPieces) && location == old(location) && showHint == old(showHint)
    {
      var normalized := Upper(Trim(location));
      if normalized == CorrectLocation && |selectedPieces| == TotalPieces {
        nav := Some(MapRoute);
      } else if |selectedPieces| != TotalPieces {
        error := IncompleteMapMessage;
        nav := None;
      } else {
        error := WrongPlaceMessage;
        nav := None;
      }
    }
  }
}
