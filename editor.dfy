/**
 * The deck editor's state (`DeckEditorApp`): the catalog read from
 * `CardList.csv`, the sorted list-box rows built from it, the main and EX
 * decks as lists of card ids, the open file, the two image names and the
 * unsaved-changes flag. Dialog answers, the chosen file, the file's lines
 * and the outcome of writing are inputs; widgets are not modelled.
 */
module Editor {
  import opened Common
  import opened Text
  import opened Sorting
  import opened Catalog
  import opened DeckFormat

  /** The name shown for an id the catalog does not know. */
  const UnknownName := "不明なカード"

  /** Where `_add_auto` and the gacha put a card: EX exactly when the catalog marks it `ex == "1"`. */
  predicate GoesToEx(catalog: map<string, CardDef>, id: string) {
    id in catalog && catalog[id].isEx
  }

  /** `_update_listbox_from_deck`: the text a deck's list box shows for an id. */
  function DeckRowText(catalog: map<string, CardDef>, id: string): string {
    Display(id, if id in catalog then catalog[id].name else UnknownName)
  }

  /** The pulled ids the gacha sends to the main deck, in pull order. */
  function MainPulls(catalog: map<string, CardDef>, pull: seq<string>): seq<string> {
    if pull == [] then []
    else MainPulls(catalog, pull[..|pull| - 1]) + (if GoesToEx(catalog, pull[|pull| - 1]) then [] else [pull[|pull| - 1]])
  }

  /** The pulled ids the gacha sends to the EX deck, in pull order. */
  function ExPulls(catalog: map<string, CardDef>, pull: seq<string>): seq<string> {
    if pull == [] then []
    else ExPulls(catalog, pull[..|pull| - 1]) + (if GoesToEx(catalog, pull[|pull| - 1]) then [pull[|pull| - 1]] else [])
  }

  /** The two parts together hold exactly the pulled ids. */
  lemma {:induction false} PullsPartition(catalog: map<string, CardDef>, pull: seq<string>)
    ensures multiset(MainPulls(catalog, pull)) + multiset(ExPulls(catalog, pull)) == multiset(pull)
    decreases |pull|
  {
    if pull != [] {
      var init := pull[..|pull| - 1];
      var last := pull[|pull| - 1];
      PullsPartition(catalog, init);
      assert init + [last] == pull;
      if GoesToEx(catalog, last) {
        assert ExPulls(catalog, pull) == ExPulls(catalog, init) + [last];
      } else {
        assert MainPulls(catalog, pull) == MainPulls(catalog, init) + [last];
      }
    }
  }

  /** A pulled id lands in the EX part exactly when its flag says EX, and in the main part otherwise. */
  lemma {:induction false} PullsRouted(catalog: map<string, CardDef>, pull: seq<string>)
    ensures forall x :: x in MainPulls(catalog, pull) <==> x in pull && !GoesToEx(catalog, x)
    ensures forall x :: x in ExPulls(catalog, pull) <==> x in pull && GoesToEx(catalog, x)
    decreases |pull|
  {
    if pull != [] {
      var init := pull[..|pull| - 1];
      PullsRouted(catalog, init);
      assert pull == init + [pull[|pull| - 1]];
    }
  }

  /** The gacha loop: each pulled id goes to EX or main by the catalog's flag. */
  method PartitionPull(catalog: map<string, CardDef>, pull: seq<string>) returns (main: seq<string>, ex: seq<string>)
    ensures main == MainPulls(catalog, pull) && ex == ExPulls(catalog, pull)
  {
    main, ex := [], [];
    var i := 0;
    while i < |pull|
      invariant 0 <= i <= |pull|
      invariant main == MainPulls(catalog, pull[..i]) && ex == ExPulls(catalog, pull[..i])
    {
      assert pull[..i + 1][..i] == pull[..i];
      var id := pull[i];
      if GoesToEx(catalog, id) {
        ex := ex + [id];
      } else {
        main := main + [id];
      }
      i := i + 1;
    }
    assert pull[..i] == pull;
  }

  /** Which deck an operation works on. */
  datatype DeckChoice = MainDeck | ExDeck

  /** What `_remove_from_deck` did: warned, or removed from one deck and reselected a row. */
  datatype RemoveOutcome = Warned | Removed(fromMain: bool, reselect: Option<nat>)

  /** The row to reselect after deleting row k of a list now n long: `min(k, n - 1)`, none when empty. */
  function ReselectAfterRemove(k: nat, n: nat): (r: Option<nat>)
    ensures r.None? <==> n == 0
    ensures r.Some? ==> r.value < n && (r.value == k || (k >= n && r.value == n - 1))
  {
    if n == 0 then None else Some(if k < n - 1 then k else n - 1)
  }

  class DeckEditor {
    var catalog: map<string, CardDef>
    var availableDisplay: seq<(string, string)>
    var mainDeck: seq<string>
    var exDeck: seq<string>
    var currentFilePath: Option<string>
    var reverseCardName: string
    var playmatName: string
    var unsavedChanges: bool

    /** A new editor with no catalog yet: empty decks, no file, the default image names. */
    constructor ()
      ensures catalog == map[] && availableDisplay == []
      ensures mainDeck == [] && exDeck == [] && currentFilePath.None?
      ensures reverseCardName == DefaultReverse && playmatName == DefaultPlaymat
      ensures !unsavedChanges
    {
      catalog := map[];
      availableDisplay := [];
      mainDeck := [];
      exDeck := [];
      currentFilePath := None;
      reverseCardName := DefaultReverse;
      playmatName := DefaultPlaymat;
      unsavedChanges := false;
    }

    /** `set_unsaved_changes`: the title is redrawn only when the flag actually changes. */
    method SetUnsavedChanges(status: bool) returns (retitled: bool)
      modifies this`unsavedChanges
      ensures unsavedChanges == status
      ensures retitled <==> old(unsavedChanges) != status
    {
      if unsavedChanges == status {
        return false;
      }
      unsavedChanges := status;
      return true;
    }

    /**
     * `_load_card_definitions`: both collections are reset, then filled
     * from the file's lines (a missing file leaves them empty); the rows
     * are sorted at the end.
     */
    method LoadCardDefinitions(file: Option<seq<string>>)
      modifies this`catalog, this`availableDisplay
      ensures file.None? ==> catalog == map[] && availableDisplay == []
      ensures file.Some? ==> catalog == Defs(Entries(file.value))
      ensures file.Some? ==> availableDisplay == SortedRows(Rows(Entries(file.value)))
    {
      catalog := map[];
      availableDisplay := [];
      if file.None? {
        return;
      }
      var lines := file.value;
      var rows: seq<(string, string)> := [];
      var i := 0;
      while i < |lines|
        invariant 0 <= i <= |lines|
        invariant catalog == Defs(Entries(lines[..i])) && rows == Rows(Entries(lines[..i]))
      {
        assert Entries(lines[..i + 1])[..i] == Entries(lines[..i]);
        match CatalogEntry(lines[i]) {
          case None =>
          case Some((id, d)) =>
            catalog := catalog[id := d];
            rows := rows + [(Display(id, d.name), id)];
        }
        i := i + 1;
      }
      assert lines[..i] == lines;
      availableDisplay := SortedRows(rows);
    }

    /** `_get_selected_card_id_from_available`, followed by the `if card_id:` test. */
    static function PickedId(selection: Option<string>): Option<string> {
      if selection.None? then None
      else if IdOfDisplay(selection.value) == "" then None
      else Some(IdOfDisplay(selection.value))
    }

    /**
     * `_add_auto`: the selected id goes to the EX deck when the catalog
     * marks it EX and to the main deck otherwise (unknown ids included);
     * no selection changes nothing.
     */
    method AddAuto(selection: Option<string>)
      modifies this`mainDeck, this`exDeck, this`unsavedChanges
      ensures PickedId(selection).None? ==> mainDeck == old(mainDeck) && exDeck == old(exDeck) && unsavedChanges == old(unsavedChanges)
      ensures PickedId(selection).Some? ==> unsavedChanges
      ensures PickedId(selection).Some? && GoesToEx(catalog, PickedId(selection).value) ==>
                exDeck == old(exDeck) + [PickedId(selection).value] && mainDeck == old(mainDeck)
      ensures PickedId(selection).Some? && !GoesToEx(catalog, PickedId(selection).value) ==>
                mainDeck == old(mainDeck) + [PickedId(selection).value] && exDeck == old(exDeck)
    {
      var picked := PickedId(selection);
      if picked.Some? {
        var id := picked.value;
        if GoesToEx(catalog, id) {
          exDeck := exDeck + [id];
        } else {
          mainDeck := mainDeck + [id];
        }
        var _ := SetUnsavedChanges(true);
      }
    }

    /** `_add_to_main_deck` / `_add_to_ex_deck`: the selected id goes to the chosen deck whatever its flag. */
    method AddTo(which: DeckChoice, selection: Option<string>)
      modifies this`mainDeck, this`exDeck, this`unsavedChanges
      ensures PickedId(selection).None? ==> mainDeck == old(mainDeck) && exDeck == old(exDeck) && unsavedChanges == old(unsavedChanges)
      ensures PickedId(selection).Some? ==> unsavedChanges
      ensures PickedId(selection).Some? && which == MainDeck ==>
                mainDeck == old(mainDeck) + [PickedId(selection).value] && exDeck == old(exDeck)
      ensures PickedId(selection).Some? && which == ExDeck ==>
                exDeck == old(exDeck) + [PickedId(selection).value] && mainDeck == old(mainDeck)
    {
      var picked := PickedId(selection);
      if picked.Some? {
        if which == MainDeck {
          mainDeck := mainDeck + [picked.value];
        } else {
          exDeck := exDeck + [picked.value];
        }
        var _ := SetUnsavedChanges(true);
      }
    }

    /**
     * `_remove_from_deck`: a main-deck selection takes precedence; a row
     * index outside its list changes nothing and warns; otherwise exactly
     * that element is deleted and row `min(index, len - 1)` is reselected.
     */
    method RemoveFromDeck(mainSel: Option<nat>, exSel: Option<nat>) returns (outcome: RemoveOutcome)
      modifies this`mainDeck, this`exDeck, this`unsavedChanges
      ensures outcome.Warned? <==>
                (mainSel.Some? && mainSel.value >= |old(mainDeck)|)
                || (mainSel.None? && (exSel.None? || exSel.value >= |old(exDeck)|))
      ensures outcome.Warned? ==> mainDeck == old(mainDeck) && exDeck == old(exDeck) && unsavedChanges == old(unsavedChanges)
      ensures outcome.Removed? && outcome.fromMain ==>
                mainSel.Some? && mainDeck == old(mainDeck)[..mainSel.value] + old(mainDeck)[mainSel.value + 1..]
                && exDeck == old(exDeck) && outcome.reselect == ReselectAfterRemove(mainSel.value, |mainDeck|)
      ensures outcome.Removed? && !outcome.fromMain ==>
                mainSel.None? && exSel.Some? && exDeck == old(exDeck)[..exSel.value] + old(exDeck)[exSel.value + 1..]
                && mainDeck == old(mainDeck) && outcome.reselect == ReselectAfterRemove(exSel.value, |exDeck|)
      ensures outcome.Removed? ==> unsavedChanges
    {
      if mainSel.Some? {
        var k := mainSel.value;
        if k < |mainDeck| {
          mainDeck := mainDeck[..k] + mainDeck[k + 1..];
          var _ := SetUnsavedChanges(true);
          return Removed(true, ReselectAfterRemove(k, |mainDeck|));
        }
      } else if exSel.Some? {
        var k := exSel.value;
        if k < |exDeck| {
          exDeck := exDeck[..k] + exDeck[k + 1..];
          var _ := SetUnsavedChanges(true);
          return Removed(false, ReselectAfterRemove(k, |exDeck|));
        }
      }
      return Warned;
    }

    /**
     * `_sort_deck`: an empty deck is left alone (and so is the flag);
     * otherwise the deck becomes its sorted permutation, the flag is set,
     * and the row reselected is the first whose id is the previously
     * selected one, or row 0.
     */
    method SortDeck(which: DeckChoice, selection: Option<string>) returns (reselect: Option<nat>)
      modifies this`mainDeck, this`exDeck, this`unsavedChanges
      ensures which == MainDeck && old(mainDeck) == [] ==> reselect.None? && mainDeck == [] && unchanged(this`exDeck, this`unsavedChanges)
      ensures which == ExDeck && old(exDeck) == [] ==> reselect.None? && exDeck == [] && unchanged(this`mainDeck, this`unsavedChanges)
      ensures which == MainDeck && old(mainDeck) != [] ==>
                mainDeck == SortedIds(old(mainDeck)) && exDeck == old(exDeck) && unsavedChanges
                && reselect.Some? && RestoredRow(catalog, mainDeck, selection, reselect.value)
      ensures which == ExDeck && old(exDeck) != [] ==>
                exDeck == SortedIds(old(exDeck)) && mainDeck == old(mainDeck) && unsavedChanges
                && reselect.Some? && RestoredRow(catalog, exDeck, selection, reselect.value)
    {
      var d := if which == MainDeck then mainDeck else exDeck;
      if d == [] {
        return None;
      }
      var sorted := SortedIds(d);
      if which == MainDeck {
        mainDeck := sorted;
      } else {
        exDeck := sorted;
      }
      var _ := SetUnsavedChanges(true);
      var row := FindRestoredRow(catalog, sorted, selection);
      return Some(row);
    }

    /** The search `_sort_deck` runs over the sorted list box for the previously selected id. */
    static method FindRestoredRow(catalog: map<string, CardDef>, d: seq<string>, selection: Option<string>) returns (row: nat)
      requires d != []
      ensures RestoredRow(catalog, d, selection, row)
    {
      var restoreId := PickedId(selection);
      if restoreId.None? {
        return 0;
      }
      var i := 0;
      while i < |d|
        invariant 0 <= i <= |d|
        invariant forall j :: 0 <= j < i ==> IdOfDisplay(DeckRowText(catalog, d[j])) != restoreId.value
      {
        if IdOfDisplay(DeckRowText(catalog, d[i])) == restoreId.value {
          return i;
        }
        i := i + 1;
      }
      return 0;
    }

    /** `deck.sort()` on card ids. */
    static function SortedIds(d: seq<string>): (r: seq<string>)
      ensures SortedBy(r, StrLe) && multiset(r) == multiset(d)
    {
      StrLeIsLinear();
      Sort(d, StrLe)
    }

    /**
     * The row `_sort_deck` reselects: the first row whose text reads as the
     * previously selected id, or row 0 when there is no such row.
     */
    static ghost predicate RestoredRow(catalog: map<string, CardDef>, d: seq<string>, selection: Option<string>, row: nat) {
      row < |d|
      && ((PickedId(selection).Some? && IdOfDisplay(DeckRowText(catalog, d[row])) == PickedId(selection).value
           && forall j :: 0 <= j < row ==> IdOfDisplay(DeckRowText(catalog, d[j])) != PickedId(selection).value)
          || (row == 0 && (PickedId(selection).None?
                           || forall j :: 0 <= j < |d| ==> IdOfDisplay(DeckRowText(catalog, d[j])) != PickedId(selection).value)))
    }

    /** `new_deck`: unless unsaved changes are kept by the user, everything is reset to a clean, empty deck. */
    method NewDeck(discardConfirmed: bool) returns (done: bool)
      modifies this`mainDeck, this`exDeck, this`currentFilePath, this`reverseCardName, this`playmatName, this`unsavedChanges
      ensures done <==> !old(unsavedChanges) || discardConfirmed
      ensures !done ==> mainDeck == old(mainDeck) && exDeck == old(exDeck) && currentFilePath == old(currentFilePath)
                        && reverseCardName == old(reverseCardName) && playmatName == old(playmatName) && unsavedChanges
      ensures done ==> mainDeck == [] && exDeck == [] && currentFilePath.None?
                       && reverseCardName == DefaultReverse && playmatName == DefaultPlaymat && !unsavedChanges
    {
      if unsavedChanges && !discardConfirmed {
        return false;
      }
      mainDeck, exDeck := [], [];
      currentFilePath := None;
      reverseCardName, playmatName := DefaultReverse, DefaultPlaymat;
      var _ := SetUnsavedChanges(false);
      return true;
    }

    /**
     * `open_deck`: after the discard question and the file dialog, the
     * file's lines go through the section machine; the result replaces both
     * decks and both image names, and the file becomes the current one. A
     * file that cannot be read changes nothing.
     */
    method OpenDeck(discardConfirmed: bool, path: string, file: Option<seq<string>>) returns (loaded: bool)
      modifies this`mainDeck, this`exDeck, this`currentFilePath, this`reverseCardName, this`playmatName, this`unsavedChanges
      ensures loaded <==> (!old(unsavedChanges) || discardConfirmed) && path != "" && file.Some?
      ensures !loaded ==> mainDeck == old(mainDeck) && exDeck == old(exDeck) && currentFilePath == old(currentFilePath)
                          && reverseCardName == old(reverseCardName) && playmatName == old(playmatName)
                          && unsavedChanges == old(unsavedChanges)
      ensures loaded ==> DeckContents(mainDeck, exDeck, reverseCardName, playmatName) == OpenDeckFile(catalog.Keys, file.value)
                         && currentFilePath == Some(path) && !unsavedChanges
    {
      if unsavedChanges && !discardConfirmed {
        return false;
      }
      if path == "" || file.None? {
        return false;
      }
      var known := catalog.Keys;
      var d := ReadDeckLines(known, file.value);
      mainDeck, exDeck, reverseCardName, playmatName := d.main, d.ex, d.reverse, d.playmat;
      currentFilePath := Some(path);
      var _ := SetUnsavedChanges(false);
      assert known == catalog.Keys;
      assert DeckContents(mainDeck, exDeck, reverseCardName, playmatName) == d;
      return true;
    }

    /** The section loop of `open_deck` over the file's lines, given the catalog's ids. */
    static method ReadDeckLines(known: set<string>, lines: seq<string>) returns (d: DeckContents)
      ensures d == OpenDeckFile(known, lines)
    {
      var st := OpenStart;
      var i := 0;
      while i < |lines|
        invariant 0 <= i <= |lines|
        invariant st == OpenRun(known, OpenStart, lines[..i])
      {
        assert lines[..i + 1][..i] == lines[..i];
        var line := Strip(lines[i]);
        if line == "" {
        } else if line == ExHeader {
          st := st.(part := ExPart);
        } else if line == ResourceHeader {
          st := st.(part := ResourcePart);
        } else if st.part == MainPart {
          if line in known {
            st := st.(main := st.main + [line]);
          }
        } else if st.part == ExPart {
          if line in known {
            st := st.(ex := st.ex + [line]);
          }
        } else {
          st := st.(resources := st.resources + [line]);
        }
        i := i + 1;
      }
      assert lines[..i] == lines;
      d := OpenResult(st);
    }

    /**
     * `_perform_save`: no path saves nothing; a write that fails leaves the
     * state as it was; otherwise the file holds `SaveDeckLines` of the
     * current decks and names, it becomes the current file and the flag is
     * cleared.
     */
    method PerformSave(path: string, writeSucceeds: bool) returns (saved: bool, written: seq<string>)
      modifies this`currentFilePath, this`unsavedChanges
      ensures saved <==> path != "" && writeSucceeds
      ensures saved ==> written == SaveDeckLines(mainDeck, exDeck, reverseCardName, playmatName)
                        && currentFilePath == Some(path) && !unsavedChanges
      ensures !saved ==> written == [] && currentFilePath == old(currentFilePath) && unsavedChanges == old(unsavedChanges)
    {
      if path == "" || !writeSucceeds {
        return false, [];
      }
      written := SaveDeckLines(mainDeck, exDeck, reverseCardName, playmatName);
      currentFilePath := Some(path);
      var _ := SetUnsavedChanges(false);
      saved := true;
    }

    /**
     * `generate_gacha_deck_action`, given the ids `random.choices` pulled
     * from the catalog (100 of them in the program): each goes to EX or main by its flag, both
     * decks are sorted, the names reset, and the deck counts as unsaved.
     * An empty catalog is an error that changes nothing.
     */
    method GenerateGachaDeck(discardConfirmed: bool, pull: seq<string>) returns (generated: bool)
      modifies this`mainDeck, this`exDeck, this`currentFilePath, this`reverseCardName, this`playmatName, this`unsavedChanges
      ensures generated <==> (!old(unsavedChanges) || discardConfirmed) && catalog.Keys != {}
      ensures !generated ==> mainDeck == old(mainDeck) && exDeck == old(exDeck) && currentFilePath == old(currentFilePath)
                             && reverseCardName == old(reverseCardName) && playmatName == old(playmatName)
                             && unsavedChanges == old(unsavedChanges)
      ensures generated ==> mainDeck == SortedIds(MainPulls(catalog, pull)) && exDeck == SortedIds(ExPulls(catalog, pull))
                            && currentFilePath.None? && reverseCardName == DefaultReverse && playmatName == DefaultPlaymat
                            && unsavedChanges
    {
      if unsavedChanges && !discardConfirmed {
        return false;
      }
      if catalog.Keys == {} {
        return false;
      }
      var main, ex := PartitionPull(catalog, pull);
      mainDeck := SortedIds(main);
      exDeck := SortedIds(ex);
      currentFilePath := None;
      reverseCardName, playmatName := DefaultReverse, DefaultPlaymat;
      var _ := SetUnsavedChanges(true);
      return true;
    }
  }

  /** The gacha deck holds every pulled card once, each in the deck its flag selects, both decks sorted. */
  lemma GachaDeckShape(catalog: map<string, CardDef>, pull: seq<string>)
    ensures |DeckEditor.SortedIds(MainPulls(catalog, pull))| + |DeckEditor.SortedIds(ExPulls(catalog, pull))| == |pull|
    ensures multiset(DeckEditor.SortedIds(MainPulls(catalog, pull))) + multiset(DeckEditor.SortedIds(ExPulls(catalog, pull))) == multiset(pull)
  {
    PullsPartition(catalog, pull);
    var m := DeckEditor.SortedIds(MainPulls(catalog, pull));
    var e := DeckEditor.SortedIds(ExPulls(catalog, pull));
    assert |m| == |multiset(m)| == |multiset(MainPulls(catalog, pull))| == |MainPulls(catalog, pull)|;
    assert |e| == |multiset(e)| == |multiset(ExPulls(catalog, pull))| == |ExPulls(catalog, pull)|;
    assert |pull| == |multiset(pull)|;
  }
}
