/**
 * The simulator's table (`ShuffleMyriadApp`): the deck, the EX deck, the
 * cards on the board, the markers, the selection, and the callbacks that
 * change them. Each method models one callback up to its closing
 * `draw_cards()`; what that redraw does to the state (clamping every card
 * into the board, resizing cards and markers) is the method Redraw. Mouse
 * positions, dialog answers, text measurements and random draws are
 * parameters.
 */
module Table {
  import opened Common
  import opened Geometry
  import opened Pieces
  import BoardFile
  import DeckFormat
  import Text

  /** What `selected_card` refers to: nothing, a card, or a marker. */
  datatype Selection = NoSelection | CardSelected(card: Card) | MarkerSelected(marker: Marker)

  /** No card or marker twice in its list, and no deck card on the board. */
  ghost predicate Apart(deck: seq<Card>, onBoard: seq<Card>, markers: seq<Marker>) {
    NoDups(deck) && NoDups(onBoard) && NoDups(markers) && forall c :: c in deck ==> c !in onBoard
  }

  /** Where `draw_from_deck` (by default), `select_card_by_id` and the deck list put a card before it is nudged off others. */
  const DrawX := 600
  const DrawY := 500
  /** `_adjust_card_position`: the first nudge and the cap on attempts. */
  const NudgeX := 10
  const NudgeY := 2
  const MaxAttempts := 100
  /** Where `add_marker` and `add_chip` put a new marker: `960 // 2 - 60` and `int(720 * 0.9)`. */
  const MarkerX := BoardWidth / 2 - 60
  const MarkerY := 648
  const MarkerWidth := 120
  const MarkerHeight := 50
  const ChipSize := 18
  /** Where `load_deck` lays the first EX card. */
  const ExStartX := 20
  const ExStartY := 600

  const DefaultReversePath := Text.ResourcePath(DeckFormat.DefaultReverse)
  const DefaultPlaymatPath := Text.ResourcePath(DeckFormat.DefaultPlaymat)

  /** The positions of the cards in cs other than c. */
  function Spots(cs: seq<Card>, c: Card): seq<(int, int)>
    reads cs
  {
    if cs == [] then []
    else Spots(cs[..|cs| - 1], c) + (if cs[|cs| - 1] != c then [(cs[|cs| - 1].x, cs[|cs| - 1].y)] else [])
  }

  lemma {:induction false} SpotsExactly(cs: seq<Card>, c: Card)
    ensures forall d :: d in cs && d != c ==> (d.x, d.y) in Spots(cs, c)
    ensures forall p :: p in Spots(cs, c) ==> exists d :: d in cs && d != c && (d.x, d.y) == p
    decreases |cs|
  {
    if cs != [] {
      var init, last := cs[..|cs| - 1], cs[|cs| - 1];
      SpotsExactly(init, c);
      assert cs == init + [last];
      forall d | d in cs && d != c ensures (d.x, d.y) in Spots(cs, c) {
        if d != last {
          assert d in init;
        }
      }
    }
  }

  /**
   * `_adjust_card_position` on plain values: while the card sits exactly on
   * one of the taken spots, step it by the current nudge (reversing a
   * component that would leave the board), clamp it into the board, and
   * every tenth attempt restart the nudge and add a random offset, which is
   * not clamped. It gives up after 100 attempts.
   */
  method Settle(x0: int, y0: int, w: int, h: int, taken: seq<(int, int)>, jitter: nat -> (int, int))
    returns (x: int, y: int, settled: bool, attempts: nat)
    ensures attempts <= MaxAttempts
    ensures settled ==> (x, y) !in taken
    ensures !settled ==> attempts == MaxAttempts
    ensures (x0, y0) !in taken ==> settled && attempts == 0 && x == x0 && y == y0
    ensures settled && attempts % 10 != 0 ==>
              0 <= x && 0 <= y && (w <= BoardWidth ==> x + w <= BoardWidth) && (h <= BoardHeight ==> y + h <= BoardHeight)
  {
    x, y := x0, y0;
    var dx, dy := NudgeX, NudgeY;
    attempts := 0;
    while attempts < MaxAttempts
      invariant attempts <= MaxAttempts
      invariant attempts == 0 ==> x == x0 && y == y0
      invariant attempts > 0 ==> (x0, y0) in taken
      invariant attempts % 10 != 0 ==>
                  0 <= x && 0 <= y && (w <= BoardWidth ==> x + w <= BoardWidth) && (h <= BoardHeight ==> y + h <= BoardHeight)
    {
      if (x, y) !in taken {
        return x, y, true, attempts;
      }
      x, y := x + dx, y + dy;
      if x + w > BoardWidth || x < 0 {
        x := x - 2 * dx;
        dx := -dx;
      }
      if y + h > BoardHeight || y < 0 {
        y := y - 2 * dy;
        dy := -dy;
      }
      x := Clamp(x, BoardWidth - w);
      y := Clamp(y, BoardHeight - h);
      attempts := attempts + 1;
      if attempts % 10 == 0 {
        dx, dy := NudgeX, NudgeY;
        x := x + jitter(attempts).0;
        y := y + jitter(attempts).1;
      }
    }
    settled := false;
  }

  /** Fresh cards for the given ids, face up and revealed at (0, 0), as `_create_card_dict` makes them. */
  method NewCards(ids: seq<string>) returns (cs: seq<Card>)
    ensures Ids(cs) == ids && NoDups(cs)
    ensures forall i :: 0 <= i < |cs| ==> fresh(cs[i])
    ensures forall i :: 0 <= i < |cs| ==>
              cs[i].x == 0 && cs[i].y == 0 && !cs[i].rotated && cs[i].faceUp && cs[i].revealed
              && cs[i].width == CardWidth && cs[i].height == CardHeight
  {
    cs := [];
    var i := 0;
    while i < |ids|
      invariant 0 <= i <= |ids|
      invariant Ids(cs) == ids[..i] && NoDups(cs) && |cs| == i
      invariant forall j :: 0 <= j < |cs| ==> fresh(cs[j])
      invariant forall j :: 0 <= j < |cs| ==>
                  cs[j].x == 0 && cs[j].y == 0 && !cs[j].rotated && cs[j].faceUp && cs[j].revealed
                  && cs[j].width == CardWidth && cs[j].height == CardHeight
    {
      var c := new Card(ids[i], 0, 0, false, true, true);
      IdsSnoc(cs, c);
      NoDupsAppend(cs, c);
      cs := cs + [c];
      assert ids[..i + 1] == ids[..i] + [ids[i]];
      i := i + 1;
    }
    assert ids[..i] == ids;
  }

  /** The loop of `gather_selected_cards`: each card moves to the spot that centres it on `centre`, clamped into the board. */
  method GatherAround(cards: seq<Card>, centre: (int, int))
    modifies set c | c in cards
    ensures forall c :: c in cards ==> (c.x, c.y) == GatherSpot(centre, c.width, c.height)
    ensures forall c :: c in cards ==>
              c.width == old(c.width) && c.height == old(c.height) && c.rotated == old(c.rotated) && c.Visibility() == old(c.Visibility())
    ensures forall c :: c in cards && 0 <= c.width <= BoardWidth && 0 <= c.height <= BoardHeight ==>
              0 <= c.x && c.x + c.width <= BoardWidth && 0 <= c.y && c.y + c.height <= BoardHeight
  {
    var i := 0;
    while i < |cards|
      invariant 0 <= i <= |cards|
      invariant forall j :: 0 <= j < i ==> (cards[j].x, cards[j].y) == GatherSpot(centre, cards[j].width, cards[j].height)
      invariant forall c :: c in cards ==>
                  c.width == old(c.width) && c.height == old(c.height) && c.rotated == old(c.rotated) && c.Visibility() == old(c.Visibility())
    {
      var spot := GatherSpot(centre, cards[i].width, cards[i].height);
      cards[i].x, cards[i].y := spot.0, spot.1;
      i := i + 1;
    }
    forall c | c in cards && 0 <= c.width <= BoardWidth && 0 <= c.height <= BoardHeight
      ensures 0 <= c.x && c.x + c.width <= BoardWidth && 0 <= c.y && c.y + c.height <= BoardHeight
    {
      GatherSpotOnBoard(centre, c.width, c.height);
    }
  }

  /** The image name `save_board` writes for an image path: its file name, or the default for an empty path. */
  function SavedImageName(path: string, default: string): string {
    if path == [] then default else Text.Basename(path)
  }

  class Table {
    var deck: seq<Card>
    var exDeck: seq<Card>
    var onBoard: seq<Card>
    var markers: seq<Marker>
    var selected: Selection
    var selectedCards: seq<Card>
    var selecting: bool
    var selectionStart: Option<(int, int)>
    var dragging: bool
    var dragOffset: (int, int)
    var reversePath: string
    var playmatPath: string

    /**
     * What every callback keeps: no card twice in the deck, on the board or
     * in the rubber-band selection, no marker twice, no deck card also on
     * the board or in the selection, and the selected card not also in the
     * rubber-band selection.
     */
    ghost predicate Valid()
      reads this
    {
      NoDups(deck) && NoDups(onBoard) && NoDups(markers) && NoDups(selectedCards)
      && (forall c :: c in deck ==> c !in onBoard && c !in selectedCards)
      && (selected.CardSelected? ==> selected.card !in selectedCards)
    }

    /** The object `selected_card` refers to, if any. */
    function Held(): set<object>
      reads this
    {
      match selected
      case NoSelection => {}
      case CardSelected(c) => {c}
      case MarkerSelected(m) => {m}
    }

    /** A new table: empty lists, nothing selected, the default card back and playmat. */
    constructor ()
      ensures Valid()
      ensures deck == [] && exDeck == [] && onBoard == [] && markers == []
      ensures selected == NoSelection && selectedCards == [] && !selecting && !dragging
      ensures reversePath == DefaultReversePath && playmatPath == DefaultPlaymatPath
    {
      deck := [];
      exDeck := [];
      onBoard := [];
      markers := [];
      selected := NoSelection;
      selectedCards := [];
      selecting := false;
      selectionStart := None;
      dragging := false;
      dragOffset := (0, 0);
      reversePath := DefaultReversePath;
      playmatPath := DefaultPlaymatPath;
    }

    // ------------------------------------------------------------ rotation and flags

    /**
     * `_toggle_card_rotation`: flip the orientation, take the size that goes
     * with it, and keep the centre (to Python's truncating `int()`).
     */
    method ToggleRotation(c: Card)
      modifies c
      ensures c.Placement() == Toggle(old(c.Placement()))
      ensures c.Visibility() == old(c.Visibility())
    {
      var (w, h) := Dims(!c.rotated);
      c.rotated := !c.rotated;
      c.x := HalfTrunc(2 * c.x + c.width - w);
      c.y := HalfTrunc(2 * c.y + c.height - h);
      c.width, c.height := w, h;
    }

    /** `rotate_selected_cards`: every card of the rubber-band selection is toggled once. */
    method RotateSelected()
      requires Valid()
      modifies selectedCards
      ensures forall c :: c in selectedCards ==> c.Placement() == Toggle(old(c.Placement())) && c.Visibility() == old(c.Visibility())
    {
      var i := 0;
      while i < |selectedCards|
        invariant 0 <= i <= |selectedCards|
        invariant forall j :: 0 <= j < i ==>
                    selectedCards[j].Placement() == Toggle(old(selectedCards[j].Placement()))
                    && selectedCards[j].Visibility() == old(selectedCards[j].Visibility())
        invariant forall j :: i <= j < |selectedCards| ==>
                    selectedCards[j].Placement() == old(selectedCards[j].Placement())
                    && selectedCards[j].Visibility() == old(selectedCards[j].Visibility())
      {
        ToggleRotation(selectedCards[i]);
        i := i + 1;
      }
    }

    /** `unrotate_all`: every rotated board card stands upright about its centre; upright ones stay put. */
    method UnrotateAll()
      requires Valid()
      modifies onBoard
      ensures forall c :: c in onBoard ==> c.Placement() == Unrotate(old(c.Placement())) && c.Visibility() == old(c.Visibility())
    {
      StandUp(onBoard);
    }

    /**
     * `face_up_selected_cards` (up) and `face_down_selected_cards`: both
     * flags of every card in the rubber-band selection are set alike.
     */
    method TurnSelected(up: bool)
      modifies selectedCards
      ensures forall c :: c in selectedCards ==> c.Visibility() == (if up then ShownFlags else HiddenFlags)
      ensures forall c :: c in selectedCards ==> c.Placement() == old(c.Placement())
    {
      var i := 0;
      while i < |selectedCards|
        invariant 0 <= i <= |selectedCards|
        invariant forall j :: 0 <= j < i ==> selectedCards[j].Visibility() == (if up then ShownFlags else HiddenFlags)
        invariant forall c :: c in selectedCards ==> c.Placement() == old(c.Placement())
      {
        selectedCards[i].faceUp := up;
        selectedCards[i].revealed := up;
        i := i + 1;
      }
    }

    /**
     * `reverse_card`: turn the selected card over. With nothing or a plain
     * marker selected nothing changes and the user is told; with a chip
     * selected the program raises instead of telling the user, and nothing
     * changes either.
     */
    method Reverse() returns (turned: bool)
      modifies Held()
      ensures turned <==> old(selected).CardSelected?
      ensures turned ==> selected.card.Visibility() == Reversed(old(selected.card.Visibility()))
                         && selected.card.Placement() == old(selected.card.Placement())
    {
      if !selected.CardSelected? {
        return false;
      }
      var c := selected.card;
      c.faceUp := !c.faceUp;
      if c.faceUp {
        c.revealed := true;
      }
      return true;
    }

    // ------------------------------------------------------------ deck and board

    /** `_adjust_card_position`: nudge c off any other board card's exact position, or give up after 100 attempts. */
    method AdjustCardPosition(c: Card, jitter: nat -> (int, int)) returns (settled: bool)
      modifies c`x, c`y
      ensures settled ==> forall d :: d in onBoard && d != c ==> d.x != c.x || d.y != c.y
      ensures (forall d :: d in onBoard && d != c ==> d.x != old(c.x) || d.y != old(c.y)) ==>
                settled && c.x == old(c.x) && c.y == old(c.y)
    {
      var taken := Spots(onBoard, c);
      SpotsExactly(onBoard, c);
      var nx, ny, ok, _ := Settle(c.x, c.y, c.width, c.height, taken, jitter);
      c.x, c.y := nx, ny;
      settled := ok;
    }

    /** The card `draw_from_deck` would take: the top of the deck, if any. */
    function Top(): set<Card>
      reads this
    {
      if deck == [] then {} else {deck[0]}
    }

    /**
     * `draw_from_deck`: the top card goes to the board at (x, y), nudged
     * off other cards, upright, with both flags set to `up`, and becomes the
     * selected card. An empty deck changes nothing. The toolbar draws at the
     * defaults (600, 500); the two menu entries draw at (600, 350).
     */
    method Draw(up: bool, x: int, y: int, jitter: nat -> (int, int)) returns (drawn: bool, clear: bool)
      requires Valid()
      modifies this`deck, this`onBoard, this`selected, Top()
      ensures Valid()
      ensures drawn <==> old(deck) != []
      ensures (deck, onBoard) == Drawn(old(deck), old(onBoard))
      ensures !drawn ==> selected == old(selected)
      ensures drawn ==> selected == CardSelected(old(deck)[0])
      ensures drawn ==> var c := old(deck)[0];
                !c.rotated && c.Visibility() == Flags(up, up)
                && c.width == old(c.width) && c.height == old(c.height)
                && (clear ==> forall d :: d in old(onBoard) ==> d.x != c.x || d.y != c.y)
                && ((forall d :: d in old(onBoard) ==> d.x != x || d.y != y) ==> clear && c.x == x && c.y == y)
    {
      if deck == [] {
        return false, false;
      }
      var c := deck[0];
      deck := deck[1..];
      c.x, c.y := x, y;
      c.rotated := false;
      c.faceUp := up;
      c.revealed := up;
      clear := AdjustCardPosition(c, jitter);
      onBoard := onBoard + [c];
      selected := CardSelected(c);
      NoDupsAppend(old(onBoard), c);
      drawn := true;
    }

    /**
     * `_select_card_from_deck`: the card in the chosen row of the deck list
     * goes to the board at (600, 500), nudged off other cards, face up,
     * revealed and upright, and becomes the selected card. No row chosen,
     * or a row past the deck, changes nothing.
     */
    method PickFromDeck(row: Option<nat>, jitter: nat -> (int, int)) returns (picked: bool, clear: bool)
      requires Valid()
      modifies this`deck, this`onBoard, this`selected, if row.Some? && row.value < |deck| then {deck[row.value]} else {}
      ensures Valid()
      ensures picked <==> row.Some? && row.value < |old(deck)|
      ensures !picked ==> deck == old(deck) && onBoard == old(onBoard) && selected == old(selected)
      ensures picked ==> (deck, onBoard) == Picked(old(deck), old(onBoard), row.value)
      ensures picked ==> var c := old(deck)[row.value];
                selected == CardSelected(c) && !c.rotated && c.Visibility() == ShownFlags
                && (clear ==> forall d :: d in old(onBoard) ==> d.x != c.x || d.y != c.y)
                && ((forall d :: d in old(onBoard) ==> d.x != DrawX || d.y != DrawY) ==> clear && c.x == DrawX && c.y == DrawY)
    {
      if row.None? || row.value >= |deck| {
        return false, false;
      }
      var k := row.value;
      var c := deck[k];
      assert deck == deck[..k] + [c] + deck[k + 1..];
      deck := deck[..k] + deck[k + 1..];
      c.x, c.y := DrawX, DrawY;
      c.faceUp := true;
      c.revealed := true;
      c.rotated := false;
      clear := AdjustCardPosition(c, jitter);
      onBoard := onBoard + [c];
      selected := CardSelected(c);
      NoDupsAppend(old(onBoard), c);
      picked := true;
    }

    /**
     * `move_to_deck_top` (toTop) and `move_to_deck_bottom`: the selected
     * board card goes back to the deck face up, revealed and upright, and
     * the selection is cleared. Anything else selected changes nothing.
     */
    method MoveToDeck(toTop: bool)
      requires Valid()
      modifies this`deck, this`onBoard, this`selected, if selected.CardSelected? then {selected.card} else {}
      ensures Valid()
      ensures old(selected).CardSelected? ==> (deck, onBoard) == Returned(old(deck), old(onBoard), old(selected).card, toTop)
      ensures !(old(selected).CardSelected? && old(selected).card in old(onBoard)) ==>
                deck == old(deck) && onBoard == old(onBoard) && selected == old(selected)
      ensures old(selected).CardSelected? && old(selected).card in old(onBoard) ==>
                var c := old(selected).card;
                selected == NoSelection && c.Visibility() == ShownFlags && !c.rotated
                && c.x == old(c.x) && c.y == old(c.y) && c.width == old(c.width) && c.height == old(c.height)
    {
      if !selected.CardSelected? || selected.card !in onBoard {
        return;
      }
      var c := selected.card;
      RemoveFirstNoDups(onBoard, c);
      onBoard := RemoveFirst(onBoard, c);
      c.faceUp := true;
      c.rotated := false;
      c.revealed := true;
      if toTop {
        NoDupsPrepend(c, deck);
        deck := [c] + deck;
      } else {
        NoDupsAppend(deck, c);
        deck := deck + [c];
      }
      selected := NoSelection;
    }

    /**
     * `bring_to_front` (toFront) and `send_to_back`: the selected card or
     * marker moves to the end or the start of its list, so it is drawn on
     * top of or under the others.
     */
    method Restack(toFront: bool)
      requires Valid()
      modifies this`onBoard, this`markers
      ensures Valid()
      ensures selected.CardSelected? ==>
                onBoard == (if toFront then ToFront(old(onBoard), selected.card) else ToBack(old(onBoard), selected.card))
                && markers == old(markers)
      ensures selected.MarkerSelected? ==>
                markers == (if toFront then ToFront(old(markers), selected.marker) else ToBack(old(markers), selected.marker))
                && onBoard == old(onBoard)
      ensures selected.NoSelection? ==> onBoard == old(onBoard) && markers == old(markers)
    {
      match selected {
        case NoSelection =>
        case CardSelected(c) =>
          var restacked := if toFront then ToFront(onBoard, c) else ToBack(onBoard, c);
          ZOrderPermutes(onBoard, c);
          PermutationNoDups(onBoard, restacked);
          SameMembers(onBoard, restacked);
          onBoard := restacked;
        case MarkerSelected(m) =>
          var restacked := if toFront then ToFront(markers, m) else ToBack(markers, m);
          ZOrderPermutes(markers, m);
          PermutationNoDups(markers, restacked);
          markers := restacked;
      }
    }

    /** `_on_delete_key`: the selected card leaves the board, or the selected marker leaves the markers. */
    method Delete()
      requires Valid()
      modifies this`onBoard, this`markers, this`selected
      ensures Valid()
      ensures old(selected).CardSelected? ==>
                onBoard == RemoveFirst(old(onBoard), old(selected).card) && old(selected).card !in onBoard && markers == old(markers)
      ensures old(selected).MarkerSelected? ==>
                markers == RemoveFirst(old(markers), old(selected).marker) && old(selected).marker !in markers && onBoard == old(onBoard)
      ensures old(selected).NoSelection? ==> onBoard == old(onBoard) && markers == old(markers)
      ensures selected == NoSelection
    {
      match selected {
        case NoSelection =>
        case CardSelected(c) =>
          RemoveFirstNoDups(onBoard, c);
          onBoard := RemoveFirst(onBoard, c);
        case MarkerSelected(m) =>
          RemoveFirstNoDups(markers, m);
          markers := RemoveFirst(markers, m);
      }
      selected := NoSelection;
    }

    /** `shuffle_deck`: the deck takes the shuffled order `order`; an empty deck only warns. */
    method ShuffleDeck(order: seq<Card>) returns (shuffled: bool)
      requires Valid()
      requires multiset(order) == multiset(deck)
      modifies this`deck
      ensures Valid()
      ensures shuffled <==> old(deck) != []
      ensures deck == (if shuffled then order else old(deck))
    {
      if deck == [] {
        return false;
      }
      PermutationNoDups(deck, order);
      assert forall c :: c in order <==> c in multiset(deck);
      deck := order;
      return true;
    }

    /**
     * `select_card_by_id`: a card with the typed id is created at (600, 500)
     * face up, nudged off other cards, put on the board and selected. No id
     * typed changes nothing; an id with no picture (and no placeholder
     * picture) only warns.
     */
    method AddCardById(answer: Option<string>, pictured: bool, jitter: nat -> (int, int)) returns (added: bool, clear: bool)
      requires Valid()
      modifies this`onBoard, this`selected
      ensures Valid()
      ensures added <==> answer.Some? && answer.value != [] && pictured
      ensures !added ==> onBoard == old(onBoard) && selected == old(selected)
      ensures added ==> |onBoard| == |old(onBoard)| + 1 && onBoard[..|old(onBoard)|] == old(onBoard)
      ensures added ==> var c := onBoard[|old(onBoard)|];
                fresh(c) && selected == CardSelected(c) && c.id == answer.value
                && c.Visibility() == ShownFlags && !c.rotated && c.width == CardWidth && c.height == CardHeight
                && (clear ==> forall d :: d in old(onBoard) ==> d.x != c.x || d.y != c.y)
                && ((forall d :: d in old(onBoard) ==> d.x != DrawX || d.y != DrawY) ==> clear && c.x == DrawX && c.y == DrawY)
    {
      if answer.None? || answer.value == [] || !pictured {
        return false, false;
      }
      var c := new Card(answer.value, DrawX, DrawY, false, true, true);
      clear := AdjustCardPosition(c, jitter);
      NoDupsAppend(onBoard, c);
      onBoard := onBoard + [c];
      selected := CardSelected(c);
      return true, clear;
    }

    /** `add_marker`: an empty 120x50 marker low in the middle of the board, selected. */
    method AddMarker()
      requires Valid()
      modifies this`markers, this`selected
      ensures Valid()
      ensures |markers| == |old(markers)| + 1 && markers[..|old(markers)|] == old(markers)
      ensures var m := markers[|old(markers)|];
                fresh(m) && selected == MarkerSelected(m)
                && m.SavedRow() == BoardFile.MarkerRow("marker", "", MarkerX, MarkerY, MarkerWidth, MarkerHeight, "")
    {
      var m := new Marker("marker", "", MarkerX, MarkerY, MarkerWidth, MarkerHeight, "");
      NoDupsAppend(markers, m);
      markers := markers + [m];
      selected := MarkerSelected(m);
    }

    /** `add_chip`: an 18x18 chip of the given colour, centred low on the board, selected. */
    method AddChip(color: string)
      requires Valid()
      modifies this`markers, this`selected
      ensures Valid()
      ensures |markers| == |old(markers)| + 1 && markers[..|old(markers)|] == old(markers)
      ensures var m := markers[|old(markers)|];
                fresh(m) && selected == MarkerSelected(m)
                && m.SavedRow() == BoardFile.MarkerRow("chip", "", BoardWidth / 2 - ChipSize / 2, MarkerY, ChipSize, ChipSize, color)
    {
      var m := new Marker("chip", "", BoardWidth / 2 - ChipSize / 2, MarkerY, ChipSize, ChipSize, color);
      NoDupsAppend(markers, m);
      markers := markers + [m];
      selected := MarkerSelected(m);
    }

    /**
     * `gather_selected_cards`: the selected cards move to the centre of
     * their bounding box, each centred there and clamped into the board.
     * With `shuffle` the cards are taken in the shuffled order `order` and
     * put on top of the other board cards. No selection changes nothing.
     */
    method Gather(shuffle: bool, order: seq<Card>)
      requires Valid()
      requires shuffle ==> multiset(order) == multiset(selectedCards)
      modifies this`onBoard, selectedCards
      ensures Valid()
      ensures selectedCards == [] ==> onBoard == old(onBoard)
      ensures !shuffle ==> onBoard == old(onBoard)
      ensures shuffle && selectedCards != [] ==> onBoard == Gathered(old(onBoard), order)
      ensures !shuffle && selectedCards != [] ==>
                var centre := Centre(Bounds(old(CardAreas(selectedCards))).value);
                forall c :: c in selectedCards ==> (c.x, c.y) == GatherSpot(centre, c.width, c.height)
      ensures shuffle && selectedCards != [] ==>
                var centre := Centre(Bounds(old(CardAreas(order))).value);
                forall c :: c in order ==> (c.x, c.y) == GatherSpot(centre, c.width, c.height)
      ensures forall c :: c in selectedCards ==>
                c.width == old(c.width) && c.height == old(c.height) && c.rotated == old(c.rotated) && c.Visibility() == old(c.Visibility())
      ensures forall c :: c in selectedCards && 0 <= c.width <= BoardWidth && 0 <= c.height <= BoardHeight ==>
                0 <= c.x && c.x + c.width <= BoardWidth && 0 <= c.y && c.y + c.height <= BoardHeight
    {
      if selectedCards != [] && !shuffle {
        GatherAround(selectedCards, Centre(Bounds(CardAreas(selectedCards)).value));
      } else if selectedCards != [] {
        GatherShuffled(order);
      }
    }

    /** `gather_selected_cards` with shuffling, on a non-empty selection. */
    method GatherShuffled(order: seq<Card>)
      requires Valid() && selectedCards != []
      requires multiset(order) == multiset(selectedCards)
      modifies this`onBoard, selectedCards
      ensures Valid()
      ensures onBoard == Gathered(old(onBoard), order)
      ensures var centre := Centre(Bounds(old(CardAreas(order))).value);
              forall c :: c in order ==> (c.x, c.y) == GatherSpot(centre, c.width, c.height)
      ensures forall c :: c in selectedCards ==>
                c.width == old(c.width) && c.height == old(c.height) && c.rotated == old(c.rotated) && c.Visibility() == old(c.Visibility())
      ensures forall c :: c in selectedCards && 0 <= c.width <= BoardWidth && 0 <= c.height <= BoardHeight ==>
                0 <= c.x && c.x + c.width <= BoardWidth && 0 <= c.y && c.y + c.height <= BoardHeight
    {
      SameMembers(order, selectedCards);
      assert selectedCards[0] in order;
      GatherAround(order, Centre(Bounds(CardAreas(order)).value));
      forall c | c in selectedCards
        ensures c.width == old(c.width) && c.height == old(c.height) && c.rotated == old(c.rotated) && c.Visibility() == old(c.Visibility())
        ensures 0 <= c.width <= BoardWidth && 0 <= c.height <= BoardHeight ==>
                  0 <= c.x && c.x + c.width <= BoardWidth && 0 <= c.y && c.y + c.height <= BoardHeight
      {
        assert c in order;
      }
      PermutationNoDups(selectedCards, order);
      GatheredDistinct(onBoard, order);
      onBoard := Gathered(onBoard, order);
    }

    // ------------------------------------------------------------ mouse

    /**
     * What a click at (px, py) lands on: the topmost marker there (markers
     * are drawn over cards), else the topmost card there, else nothing.
     */
    function ItemAt(px: int, py: int): (s: Selection)
      reads this, markers, onBoard
      ensures s.MarkerSelected? ==>
                exists i :: 0 <= i < |markers| && markers[i] == s.marker && Hits(markers[i].Area(), px, py)
                            && forall j :: i < j < |markers| ==> !Hits(markers[j].Area(), px, py)
      ensures s.CardSelected? ==>
                (forall j :: 0 <= j < |markers| ==> !Hits(markers[j].Area(), px, py))
                && exists i :: 0 <= i < |onBoard| && onBoard[i] == s.card && Hits(onBoard[i].Area(), px, py)
                               && forall j :: i < j < |onBoard| ==> !Hits(onBoard[j].Area(), px, py)
      ensures s.NoSelection? ==>
                (forall j :: 0 <= j < |markers| ==> !Hits(markers[j].Area(), px, py))
                && forall j :: 0 <= j < |onBoard| ==> !Hits(onBoard[j].Area(), px, py)
    {
      MarkerAreasAt(markers);
      CardAreasAt(onBoard);
      var mh := TopmostHit(MarkerAreas(markers), px, py);
      var ch := TopmostHit(CardAreas(onBoard), px, py);
      if mh.Some? then MarkerSelected(markers[mh.value])
      else if ch.Some? then CardSelected(onBoard[ch.value])
      else NoSelection
    }

    /**
     * `_on_canvas_click`: the item under the point becomes the selected item
     * and starts a drag, remembering where in it the pointer grabbed; a
     * click on empty board starts a rubber band there. Either way the
     * rubber-band selection is cleared.
     */
    method Click(px: int, py: int)
      requires Valid()
      modifies this`selected, this`selectedCards, this`selecting, this`selectionStart, this`dragging, this`dragOffset
      ensures Valid()
      ensures selected == old(ItemAt(px, py)) && selectedCards == []
      ensures dragging == !selected.NoSelection? && selecting == selected.NoSelection?
      ensures selected.MarkerSelected? ==> dragOffset == (px - selected.marker.x, py - selected.marker.y)
      ensures selected.CardSelected? ==> dragOffset == (px - selected.card.x, py - selected.card.y)
      ensures selectionStart == if selected.NoSelection? then Some((px, py)) else None
    {
      var hit := ItemAt(px, py);
      match hit {
        case MarkerSelected(m) =>
          dragOffset := (px - m.x, py - m.y);
        case CardSelected(c) =>
          dragOffset := (px - c.x, py - c.y);
        case NoSelection =>
      }
      selected := hit;
      selectedCards := [];
      dragging := !hit.NoSelection?;
      selecting := hit.NoSelection?;
      selectionStart := if hit.NoSelection? then Some((px, py)) else None;
    }

    /** `_on_canvas_drag`: while dragging (not drawing a rubber band) the held item follows the pointer. */
    method Drag(px: int, py: int)
      modifies Held()
      ensures !selecting && dragging && selected.CardSelected? ==>
                selected.card.x == px - dragOffset.0 && selected.card.y == py - dragOffset.1
      ensures !selecting && dragging && selected.MarkerSelected? ==>
                selected.marker.x == px - dragOffset.0 && selected.marker.y == py - dragOffset.1
      ensures selecting || !dragging ==> unchanged(Held())
    {
      if selecting || !dragging {
        return;
      }
      match selected {
        case NoSelection =>
        case CardSelected(c) =>
          c.x, c.y := px - dragOffset.0, py - dragOffset.1;
        case MarkerSelected(m) =>
          m.x, m.y := px - dragOffset.0, py - dragOffset.1;
      }
    }

    /**
     * `_on_canvas_release`: a rubber band becomes the selection of the cards
     * it touches; otherwise the drag ends and the held item is clamped into
     * the board.
     */
    method Release(ex: int, ey: int)
      requires Valid()
      modifies this`selecting, this`selectedCards, this`selected, this`dragging, Held()
      ensures Valid()
      ensures old(selecting) ==>
                !selecting && selected == NoSelection && selectedCards == SelectedBy(onBoard, selectionStart, ex, ey)
                && unchanged(old(Held()))
      ensures !old(selecting) ==> !dragging && selected == old(selected) && selectedCards == old(selectedCards)
      ensures !old(selecting) && selected.CardSelected? ==>
                var c := selected.card;
                c.x == Clamp(old(c.x), BoardWidth - c.width) && c.y == Clamp(old(c.y), BoardHeight - c.height)
      ensures !old(selecting) && selected.MarkerSelected? ==>
                var m := selected.marker;
                m.x == Clamp(old(m.x), BoardWidth - m.width) && m.y == Clamp(old(m.y), BoardHeight - m.height)
    {
      if selecting {
        selecting := false;
        var chosen := SelectedBy(onBoard, selectionStart, ex, ey);
        if selectionStart.Some? {
          TouchingExactly(onBoard, BandOf(selectionStart.value.0, selectionStart.value.1, ex, ey));
        }
        selectedCards := chosen;
        selected := NoSelection;
        return;
      }
      dragging := false;
      match selected {
        case NoSelection =>
        case CardSelected(c) =>
          c.x, c.y := Clamp(c.x, BoardWidth - c.width), Clamp(c.y, BoardHeight - c.height);
        case MarkerSelected(m) =>
          m.x, m.y := Clamp(m.x, BoardWidth - m.width), Clamp(m.y, BoardHeight - m.height);
      }
    }

    /** `_on_canvas_right_click`: the topmost card under the point is selected and rotated; empty board changes nothing. */
    method RightClick(px: int, py: int)
      requires Valid()
      modifies this`selected, this`selectedCards, onBoard
      ensures Valid()
      ensures var h := TopmostHit(old(CardAreas(onBoard)), px, py);
              h.Some? ==> var c := onBoard[h.value];
                selected == CardSelected(c) && selectedCards == []
                && c.Placement() == Toggle(old(c.Placement())) && c.Visibility() == old(c.Visibility())
                && forall d :: d in onBoard && d != c ==> unchanged(d)
      ensures TopmostHit(old(CardAreas(onBoard)), px, py).None? ==>
                selected == old(selected) && selectedCards == old(selectedCards) && forall d :: d in onBoard ==> unchanged(d)
    {
      var h := TopmostHit(CardAreas(onBoard), px, py);
      if h.None? {
        return;
      }
      var c := onBoard[h.value];
      selected := CardSelected(c);
      selectedCards := [];
      ToggleRotation(c);
    }

    // ------------------------------------------------------------ redraw

    /**
     * The state changes of `draw_cards`: every board card is clamped into
     * the board (using the size it had) and then, when it is face down or
     * is in `pictured` (it has a picture of its own, or the placeholder
     * picture exists), takes the size of its orientation; a face-up card
     * with no picture keeps its size. A plain marker is sized to its text, as measured by
     * `measure`, with a 20x10 margin and at least 120x50; chips keep their size.
     */
    method Redraw(measure: string -> (int, int), pictured: set<Card>)
      requires Valid()
      modifies onBoard, markers
      ensures forall c :: c in onBoard ==>
                c.x == Clamp(old(c.x), BoardWidth - old(c.width)) && c.y == Clamp(old(c.y), BoardHeight - old(c.height))
                && (c.width, c.height) == (if !c.faceUp || c in pictured then Dims(c.rotated) else (old(c.width), old(c.height)))
                && c.rotated == old(c.rotated) && c.Visibility() == old(c.Visibility())
      ensures forall c :: c in onBoard && (old(c.width), old(c.height)) == Dims(c.rotated) ==>
                0 <= c.x && c.x + c.width <= BoardWidth && 0 <= c.y && c.y + c.height <= BoardHeight
      ensures forall m :: m in markers ==>
                m.x == old(m.x) && m.y == old(m.y) && m.kind == old(m.kind) && m.text == old(m.text) && m.chipColor == old(m.chipColor)
                && (m.kind == "chip" ==> m.width == old(m.width) && m.height == old(m.height))
                && (m.kind != "chip" ==> (m.width, m.height) == MarkerSize(TextSize(measure, m.text).0, TextSize(measure, m.text).1))
    {
      RedrawCards(onBoard, pictured);
      ResizeMarkers(markers, measure);
    }

    // ------------------------------------------------------------ files

    /**
     * `load_deck`: the chosen deck file replaces the deck and the EX deck
     * with new face-up cards, lays the EX cards out on the board from
     * (20, 600) (they stay in the EX deck as well; the board is not
     * cleared), and takes the card back and playmat it names. A cancelled
     * dialog changes nothing.
     */
    method LoadDeck(file: Option<seq<string>>)
      requires Valid()
      modifies this`deck, this`exDeck, this`onBoard, this`reversePath, this`playmatPath
      ensures Valid()
      ensures file.None? ==> deck == old(deck) && exDeck == old(exDeck) && onBoard == old(onBoard)
                             && reversePath == old(reversePath) && playmatPath == old(playmatPath)
      ensures file.Some? ==>
                var split := DeckFormat.SplitDeckFile(file.value);
                Ids(deck) == split.main && Ids(exDeck) == split.ex && onBoard == old(onBoard) + exDeck
                && reversePath == split.reversePath && playmatPath == split.playmatPath
      ensures file.Some? ==> forall k :: 0 <= k < |exDeck| ==> (exDeck[k].x, exDeck[k].y) == ExSlot(k)
      ensures file.Some? ==> forall c :: c in deck || c in exDeck ==>
                fresh(c) && c.Visibility() == ShownFlags && !c.rotated && c.width == CardWidth && c.height == CardHeight
    {
      if file.None? {
        return;
      }
      var split := DeckFormat.SplitDeckFile(file.value);
      reversePath := split.reversePath;
      playmatPath := split.playmatPath;
      NewDecks(split.main, split.ex);
    }

    /** The part of `load_deck` after the file is read: new cards for both decks, the EX cards also laid out on the board. */
    method NewDecks(mainIds: seq<string>, exIds: seq<string>)
      requires Valid()
      modifies this`deck, this`exDeck, this`onBoard
      ensures Valid()
      ensures Ids(deck) == mainIds && Ids(exDeck) == exIds && onBoard == old(onBoard) + exDeck
      ensures forall k :: 0 <= k < |exDeck| ==> (exDeck[k].x, exDeck[k].y) == ExSlot(k)
      ensures forall c :: c in deck || c in exDeck ==>
                fresh(c) && c.Visibility() == ShownFlags && !c.rotated && c.width == CardWidth && c.height == CardHeight
    {
      var ex := NewCards(exIds);
      var main := NewCards(mainIds);
      assert forall i, j :: 0 <= i < |main| && 0 <= j < |ex| ==> main[i] != ex[j];
      deck := main;
      exDeck := ex;
      forall i, j | 0 <= i < |old(onBoard)| && 0 <= j < |ex| ensures old(onBoard)[i] != ex[j] {
      }
      NoDupsConcat(onBoard, ex);
      assert forall c :: c in main ==> c !in onBoard + ex && c !in selectedCards;
      LayOutEx(ex);
      assert Valid();
    }

    /** The loop of `load_deck` that lays the EX cards out in rows from (20, 600) and adds them to the board. */
    method LayOutEx(ex: seq<Card>)
      requires NoDups(ex)
      modifies this`onBoard, set c | c in ex
      ensures onBoard == old(onBoard) + ex
      ensures forall k :: 0 <= k < |ex| ==> (ex[k].x, ex[k].y) == ExSlot(k)
      ensures forall c :: c in ex ==> c.rotated == old(c.rotated) && c.Visibility() == old(c.Visibility())
                                      && c.width == old(c.width) && c.height == old(c.height)
    {
      var x, y := ExStartX, ExStartY;
      var k := 0;
      while k < |ex|
        invariant 0 <= k <= |ex|
        invariant (x, y) == ExSlot(k)
        invariant onBoard == old(onBoard) + ex[..k]
        invariant forall j :: 0 <= j < k ==> (ex[j].x, ex[j].y) == ExSlot(j)
        invariant forall c :: c in ex ==> c.rotated == old(c.rotated) && c.Visibility() == old(c.Visibility())
                                          && c.width == old(c.width) && c.height == old(c.height)
      {
        ex[k].x, ex[k].y := x, y;
        assert ex[..k + 1] == ex[..k] + [ex[k]];
        onBoard := onBoard + [ex[k]];
        ExSlotStep(k);
        x := x + 15;
        if x > 900 {
          x, y := ExStartX, y + 10;
        }
        k := k + 1;
      }
      assert ex[..k] == ex;
    }

    /**
     * `load_board`: the four lists are emptied and the selection cleared,
     * then the file is read as BoardFile.Load reads it, with a new card for
     * every deck id and board row and a new marker for every marker row.
     * The named card back and playmat are taken only when the whole file was
     * read: a number `int()` rejects ends the load with what was read so far.
     */
    method LoadBoard(file: Option<seq<string>>)
      requires Valid()
      modifies this`deck, this`exDeck, this`onBoard, this`markers, this`selected, this`reversePath, this`playmatPath
      ensures Valid()
      ensures file.None? ==> deck == old(deck) && exDeck == old(exDeck) && onBoard == old(onBoard) && markers == old(markers)
                             && selected == old(selected) && reversePath == old(reversePath) && playmatPath == old(playmatPath)
      ensures file.Some? ==>
                var st := BoardFile.Load(file.value);
                Ids(deck) == st.deck && CardRows(onBoard) == st.board && MarkerRows(markers) == st.markers
                && exDeck == [] && selected == NoSelection
                && reversePath == (if !st.failed && |st.resources| >= 1 then Text.ResourcePath(st.resources[0]) else old(reversePath))
                && playmatPath == (if !st.failed && |st.resources| >= 2 then Text.ResourcePath(st.resources[1]) else old(playmatPath))
    {
      if file.Some? {
        ReplaceBoard(file.value);
      }
    }

    /** `load_board` once a file was chosen and read into lines. */
    method ReplaceBoard(lines: seq<string>)
      requires Valid()
      modifies this`deck, this`exDeck, this`onBoard, this`markers, this`selected, this`reversePath, this`playmatPath
      ensures Valid()
      ensures var st := BoardFile.Load(lines);
              Ids(deck) == st.deck && CardRows(onBoard) == st.board && MarkerRows(markers) == st.markers
              && exDeck == [] && selected == NoSelection
              && reversePath == (if !st.failed && |st.resources| >= 1 then Text.ResourcePath(st.resources[0]) else old(reversePath))
              && playmatPath == (if !st.failed && |st.resources| >= 2 then Text.ResourcePath(st.resources[1]) else old(playmatPath))
    {
      deck, onBoard, markers := [], [], [];
      exDeck := [];
      selected := NoSelection;
      var resources, failed := ReadBoard(lines);
      if !failed {
        TakeImages(resources);
      }
    }

    /** The end of `load_board`: the first resource line names the card back, the second the playmat. */
    method TakeImages(resources: seq<string>)
      modifies this`reversePath, this`playmatPath
      ensures reversePath == if |resources| >= 1 then Text.ResourcePath(resources[0]) else old(reversePath)
      ensures playmatPath == if |resources| >= 2 then Text.ResourcePath(resources[1]) else old(playmatPath)
      ensures CardRows(onBoard) == old(CardRows(onBoard)) && MarkerRows(markers) == old(MarkerRows(markers))
    {
      if |resources| >= 1 {
        reversePath := Text.ResourcePath(resources[0]);
      }
      if |resources| >= 2 {
        playmatPath := Text.ResourcePath(resources[1]);
      }
    }

    /** The loop of `load_board`, from empty lists: it stops at the first number `int()` rejects. */
    method ReadBoard(lines: seq<string>) returns (resources: seq<string>, failed: bool)
      requires deck == [] && onBoard == [] && markers == []
      modifies this`deck, this`onBoard, this`markers
      ensures var st := BoardFile.Load(lines);
              Ids(deck) == st.deck && CardRows(onBoard) == st.board && MarkerRows(markers) == st.markers
              && resources == st.resources && failed == st.failed
      ensures NoDups(deck) && NoDups(onBoard) && NoDups(markers)
      ensures forall c :: c in deck ==> c !in onBoard && c !in selectedCards
    {
      var section := BoardFile.NoSection;
      resources, failed := [], false;
      var i := 0;
      while i < |lines| && !failed
        invariant 0 <= i <= |lines|
        invariant BoardFile.LoadState(section, resources, Ids(deck), CardRows(onBoard), MarkerRows(markers), failed)
                  == BoardFile.Run(BoardFile.Start, lines[..i])
        invariant Apart(deck, onBoard, markers)
        invariant forall c :: c in deck ==> fresh(c)
      {
        assert lines[..i + 1] == lines[..i] + [lines[i]];
        section, resources, failed := ReadBoardLine(section, resources, lines[i], lines[..i]);
        i := i + 1;
      }
      BoardFile.RunStopped(lines, i);
    }

    /**
     * One pass of `load_board`'s loop: the line is read as BoardFile.Step
     * reads it, and the deck id, board row or marker row it adds, if any,
     * becomes a new card or marker at the end of its list.
     */
    method ReadBoardLine(section: BoardFile.Section, resources: seq<string>, raw: string, ghost before: seq<string>)
      returns (section': BoardFile.Section, resources': seq<string>, failed: bool)
      requires BoardFile.LoadState(section, resources, Ids(deck), CardRows(onBoard), MarkerRows(markers), false)
               == BoardFile.Run(BoardFile.Start, before)
      requires Apart(deck, onBoard, markers)
      modifies this`deck, this`onBoard, this`markers
      ensures BoardFile.LoadState(section', resources', Ids(deck), CardRows(onBoard), MarkerRows(markers), failed)
              == BoardFile.Run(BoardFile.Start, before + [raw])
      ensures Apart(deck, onBoard, markers)
      ensures forall c :: c in deck ==> c in old(deck) || fresh(c)
    {
      var st := BoardFile.LoadState(section, resources, Ids(deck), CardRows(onBoard), MarkerRows(markers), false);
      BoardFile.RunSnoc(BoardFile.Start, before, raw);
      var next := BoardFile.Step(st, raw);
      BoardFile.StepAddsAtMostOne(st, raw);
      if |next.deck| > |st.deck| {
        AppendDeckCard(next.deck[|st.deck|]);
        NoDupsAppend(old(deck), deck[|old(deck)|]);
      } else if |next.board| > |st.board| {
        AppendBoardCard(next.board[|st.board|]);
        NoDupsAppend(old(onBoard), onBoard[|old(onBoard)|]);
      } else if |next.markers| > |st.markers| {
        AppendMarker(next.markers[|st.markers|]);
        NoDupsAppend(old(markers), markers[|old(markers)|]);
      }
      section', resources', failed := next.section, next.resources, next.failed;
    }

    /** A new face-up card with the given id at the end of the deck. */
    method AppendDeckCard(id: string)
      modifies this`deck
      ensures |deck| == |old(deck)| + 1 && deck == old(deck) + [deck[|old(deck)|]] && fresh(deck[|old(deck)|])
      ensures Ids(deck) == old(Ids(deck)) + [id]
      ensures CardRows(onBoard) == old(CardRows(onBoard)) && MarkerRows(markers) == old(MarkerRows(markers))
    {
      var c := new Card(id, 0, 0, false, true, true);
      IdsSnoc(deck, c);
      deck := deck + [c];
    }

    /** A new card made from a saved row at the end of the board. */
    method AppendBoardCard(r: BoardFile.CardRow)
      modifies this`onBoard
      ensures |onBoard| == |old(onBoard)| + 1 && onBoard == old(onBoard) + [onBoard[|old(onBoard)|]] && fresh(onBoard[|old(onBoard)|])
      ensures CardRows(onBoard) == old(CardRows(onBoard)) + [r]
      ensures MarkerRows(markers) == old(MarkerRows(markers))
    {
      var rows, kept := CardRows(onBoard), MarkerRows(markers);
      var c := new Card(r.id, r.x, r.y, r.rotated, r.faceUp, r.revealed);
      assert CardRows(onBoard) == rows && MarkerRows(markers) == kept;
      CardRowsSnoc(onBoard, c);
      onBoard := onBoard + [c];
    }

    /** A new marker made from a saved row at the end of the markers. */
    method AppendMarker(r: BoardFile.MarkerRow)
      modifies this`markers
      ensures |markers| == |old(markers)| + 1 && markers == old(markers) + [markers[|old(markers)|]] && fresh(markers[|old(markers)|])
      ensures MarkerRows(markers) == old(MarkerRows(markers)) + [r]
      ensures CardRows(onBoard) == old(CardRows(onBoard))
    {
      var rows, kept := MarkerRows(markers), CardRows(onBoard);
      var m := new Marker(r.kind, r.text, r.x, r.y, r.width, r.height, r.chipColor);
      assert MarkerRows(markers) == rows && CardRows(onBoard) == kept;
      MarkerRowsSnoc(markers, m);
      markers := markers + [m];
    }

    /** What `save_board` writes: the image names, the deck ids, every board card's row and every marker's row. */
    function Snapshot(): BoardFile.Snapshot
      reads this, deck, onBoard, markers
    {
      BoardFile.Snapshot(SavedImageName(reversePath, DeckFormat.DefaultReverse), SavedImageName(playmatPath, DeckFormat.DefaultPlaymat),
                         Ids(deck), CardRows(onBoard), MarkerRows(markers))
    }

    /** The lines of the file `save_board` writes. */
    function SaveBoardLines(): seq<string>
      reads this, deck, onBoard, markers
    {
      BoardFile.SaveLines(Snapshot())
    }
  }

  /** A marker's measured text size: nothing to measure for empty text. */
  function TextSize(measure: string -> (int, int), text: string): (int, int) {
    if text == [] then (0, 0) else measure(text)
  }

  /** The loop of `unrotate_all`: a rotated card is stood upright about its centre. */
  method StandUp(cs: seq<Card>)
    requires NoDups(cs)
    modifies set c | c in cs
    ensures forall c :: c in cs ==> c.Placement() == Unrotate(old(c.Placement())) && c.Visibility() == old(c.Visibility())
  {
    var i := 0;
    while i < |cs|
      invariant 0 <= i <= |cs|
      invariant forall j :: 0 <= j < i ==> cs[j].Placement() == Unrotate(old(cs[j].Placement())) && cs[j].Visibility() == old(cs[j].Visibility())
      invariant forall j :: i <= j < |cs| ==> cs[j].Placement() == old(cs[j].Placement()) && cs[j].Visibility() == old(cs[j].Visibility())
    {
      Upright(cs[i]);
      i := i + 1;
    }
  }

  /** One card of `unrotate_all`. */
  method Upright(c: Card)
    modifies c
    ensures c.Placement() == Unrotate(old(c.Placement())) && c.Visibility() == old(c.Visibility())
  {
    if c.rotated {
      c.rotated := false;
      c.x := HalfTrunc(2 * c.x + c.width - CardWidth);
      c.y := HalfTrunc(2 * c.y + c.height - CardHeight);
      c.width, c.height := CardWidth, CardHeight;
    }
  }

  /**
   * The card half of `draw_cards`: clamp each card with the size it had,
   * then give it the size of its orientation unless it is face up with no
   * picture (not in `pictured`).
   */
  method RedrawCards(cs: seq<Card>, pictured: set<Card>)
    requires NoDups(cs)
    modifies set c | c in cs
    ensures forall c :: c in cs ==>
              c.x == Clamp(old(c.x), BoardWidth - old(c.width)) && c.y == Clamp(old(c.y), BoardHeight - old(c.height))
              && (c.width, c.height) == (if !c.faceUp || c in pictured then Dims(c.rotated) else (old(c.width), old(c.height)))
              && c.rotated == old(c.rotated) && c.Visibility() == old(c.Visibility())
    ensures forall c :: c in cs && (old(c.width), old(c.height)) == Dims(c.rotated) ==>
              0 <= c.x && c.x + c.width <= BoardWidth && 0 <= c.y && c.y + c.height <= BoardHeight
  {
    var i := 0;
    while i < |cs|
      invariant 0 <= i <= |cs|
      invariant forall j :: 0 <= j < i ==>
                  cs[j].x == Clamp(old(cs[j].x), BoardWidth - old(cs[j].width)) && cs[j].y == Clamp(old(cs[j].y), BoardHeight - old(cs[j].height))
                  && (cs[j].width, cs[j].height)
                     == (if !cs[j].faceUp || cs[j] in pictured then Dims(cs[j].rotated) else (old(cs[j].width), old(cs[j].height)))
                  && cs[j].rotated == old(cs[j].rotated)
                  && cs[j].Visibility() == old(cs[j].Visibility())
      invariant forall j :: i <= j < |cs| ==> cs[j].Placement() == old(cs[j].Placement()) && cs[j].Visibility() == old(cs[j].Visibility())
    {
      var c := cs[i];
      c.x := Clamp(c.x, BoardWidth - c.width);
      c.y := Clamp(c.y, BoardHeight - c.height);
      if !c.faceUp || c in pictured {
        c.width, c.height := Dims(c.rotated).0, Dims(c.rotated).1;
      }
      i := i + 1;
    }
  }

  /** The marker half of `draw_cards`: a plain marker fits its text; a chip keeps its size. */
  method ResizeMarkers(ms: seq<Marker>, measure: string -> (int, int))
    modifies set m | m in ms
    ensures forall m :: m in ms ==>
              m.x == old(m.x) && m.y == old(m.y) && m.kind == old(m.kind) && m.text == old(m.text) && m.chipColor == old(m.chipColor)
              && (m.kind == "chip" ==> m.width == old(m.width) && m.height == old(m.height))
              && (m.kind != "chip" ==> (m.width, m.height) == MarkerSize(TextSize(measure, m.text).0, TextSize(measure, m.text).1))
  {
    var k := 0;
    while k < |ms|
      invariant 0 <= k <= |ms|
      invariant forall m :: m in ms ==>
                  m.x == old(m.x) && m.y == old(m.y) && m.kind == old(m.kind) && m.text == old(m.text) && m.chipColor == old(m.chipColor)
                  && (m.kind == "chip" ==> m.width == old(m.width) && m.height == old(m.height))
      invariant forall j :: 0 <= j < k && ms[j].kind != "chip" ==>
                  (ms[j].width, ms[j].height) == MarkerSize(TextSize(measure, ms[j].text).0, TextSize(measure, ms[j].text).1)
    {
      var m := ms[k];
      if m.kind != "chip" {
        var size := MarkerSize(TextSize(measure, m.text).0, TextSize(measure, m.text).1);
        m.width, m.height := size.0, size.1;
      }
      k := k + 1;
    }
  }

  /**
   * Saving the board and loading the file back gives the same deck ids, the
   * same board rows and the same markers, and the same card back and
   * playmat paths, for a board whose contents the format can carry and
   * whose images sit in the resource folder under plain names.
   */
  lemma BoardSaveThenLoad(t: Table, reverse: string, playmat: string)
    requires t.reversePath == Text.ResourcePath(reverse) && t.playmatPath == Text.ResourcePath(playmat)
    requires '/' !in reverse && '/' !in playmat
    requires BoardFile.SaveSafe(t.Snapshot())
    ensures var st := BoardFile.Load(t.SaveBoardLines());
            !st.failed && st.deck == Ids(t.deck) && st.board == CardRows(t.onBoard) && st.markers == MarkerRows(t.markers)
            && |st.resources| == 2
            && Text.ResourcePath(st.resources[0]) == t.reversePath && Text.ResourcePath(st.resources[1]) == t.playmatPath
  {
    Text.BasenameOfResourcePath(reverse);
    Text.BasenameOfResourcePath(playmat);
    BoardFile.SaveLoadRoundTrip(t.Snapshot());
  }
}
