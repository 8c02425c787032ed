/**
 * The simulator's movable pieces. A card or a marker is a Python dict that
 * the table's callbacks change in place and that several lists may share
 * (an EX card sits in `ex_deck` and in `on_board` at once), so each is an
 * object here. Python compares the dicts by value with `in`, `remove` and
 * `==`; the model assumes instead that two distinct dicts never compare
 * equal, and compares pieces by identity. The assumption fails for two
 * cards or two markers whose fields all agree (two face-down copies of one
 * card at one spot, two markers just added); README's "Left out" lines on
 * `Card`'s and `Marker`'s constructors say what the model then misses.
 *
 * Besides the two classes, this module states on plain sequences what the
 * table's list operations do (draw, pick from the deck, return to the deck,
 * z-order, gather) and the views other parts of the program take of the
 * pieces: the rows the board file stores, the rectangles a click or the
 * rubber band is tested against, and the opponent's mirrored sprites.
 */
module Pieces {
  import opened Common
  import opened Geometry
  import opened BoardFile

  /** A card's two visibility flags: shown face up, and seen face up at some point. */
  datatype Flags = Flags(faceUp: bool, revealed: bool)

  /** A card dict of `_create_card_dict`; the images it holds are not modelled. */
  class Card {
    const id: string
    var x: int
    var y: int
    var width: int
    var height: int
    var rotated: bool
    var faceUp: bool
    var revealed: bool

    /** `_create_card_dict`: a new card is 78x111 whatever `rotated` says; the next redraw resizes it. */
    constructor (id: string, x: int, y: int, rotated: bool, faceUp: bool, revealed: bool)
      ensures this.id == id && this.x == x && this.y == y && this.rotated == rotated
      ensures this.faceUp == faceUp && this.revealed == revealed
      ensures width == CardWidth && height == CardHeight
    {
      this.id := id;
      this.x := x;
      this.y := y;
      this.width := CardWidth;
      this.height := CardHeight;
      this.rotated := rotated;
      this.faceUp := faceUp;
      this.revealed := revealed;
    }

    function Area(): Rect
      reads this
    {
      Rect(x, y, width, height)
    }

    function Placement(): Pose
      reads this
    {
      Pose(x, y, width, height, rotated)
    }

    function Visibility(): Flags
      reads this
    {
      Flags(faceUp, revealed)
    }

    /** The `[Board]` row `save_board` writes for this card. */
    function SavedRow(): CardRow
      reads this
    {
      CardRow(id, x, y, rotated, faceUp, revealed)
    }
  }

  /** A marker or chip dict: a labelled translucent box, or a small coloured disc when `kind` is "chip". */
  class Marker {
    var kind: string
    var text: string
    var x: int
    var y: int
    var width: int
    var height: int
    var chipColor: string

    constructor (kind: string, text: string, x: int, y: int, width: int, height: int, chipColor: string)
      ensures this.kind == kind && this.text == text && this.x == x && this.y == y
      ensures this.width == width && this.height == height && this.chipColor == chipColor
    {
      this.kind := kind;
      this.text := text;
      this.x := x;
      this.y := y;
      this.width := width;
      this.height := height;
      this.chipColor := chipColor;
    }

    function Area(): Rect
      reads this
    {
      Rect(x, y, width, height)
    }

    /** The `[Markers]` row `save_board` writes for this marker. */
    function SavedRow(): MarkerRow
      reads this
    {
      MarkerRow(kind, text, x, y, width, height, chipColor)
    }
  }

  // ---------------------------------------------------------------- views

  function Ids(cs: seq<Card>): seq<string> {
    if cs == [] then [] else Ids(cs[..|cs| - 1]) + [cs[|cs| - 1].id]
  }

  function CardRows(cs: seq<Card>): seq<CardRow>
    reads cs
  {
    if cs == [] then [] else CardRows(cs[..|cs| - 1]) + [cs[|cs| - 1].SavedRow()]
  }

  function MarkerRows(ms: seq<Marker>): seq<MarkerRow>
    reads ms
  {
    if ms == [] then [] else MarkerRows(ms[..|ms| - 1]) + [ms[|ms| - 1].SavedRow()]
  }

  lemma IdsSnoc(cs: seq<Card>, c: Card)
    ensures Ids(cs + [c]) == Ids(cs) + [c.id]
  {
    assert (cs + [c])[..|cs|] == cs;
  }

  lemma CardRowsSnoc(cs: seq<Card>, c: Card)
    ensures CardRows(cs + [c]) == CardRows(cs) + [c.SavedRow()]
  {
    assert (cs + [c])[..|cs|] == cs;
  }

  lemma MarkerRowsSnoc(ms: seq<Marker>, m: Marker)
    ensures MarkerRows(ms + [m]) == MarkerRows(ms) + [m.SavedRow()]
  {
    assert (ms + [m])[..|ms|] == ms;
  }

  /** The rectangles of a list of cards, in list (drawing) order. */
  function CardAreas(cs: seq<Card>): (rs: seq<Rect>)
    reads cs
    ensures |rs| == |cs|
  {
    if cs == [] then [] else CardAreas(cs[..|cs| - 1]) + [cs[|cs| - 1].Area()]
  }

  function MarkerAreas(ms: seq<Marker>): (rs: seq<Rect>)
    reads ms
    ensures |rs| == |ms|
  {
    if ms == [] then [] else MarkerAreas(ms[..|ms| - 1]) + [ms[|ms| - 1].Area()]
  }

  /** Entry i of the areas is the area of card i. */
  lemma {:induction false} CardAreasAt(cs: seq<Card>)
    ensures forall i :: 0 <= i < |cs| ==> CardAreas(cs)[i] == cs[i].Area()
    decreases |cs|
  {
    if cs != [] {
      CardAreasAt(cs[..|cs| - 1]);
    }
  }

  lemma {:induction false} MarkerAreasAt(ms: seq<Marker>)
    ensures forall i :: 0 <= i < |ms| ==> MarkerAreas(ms)[i] == ms[i].Area()
    decreases |ms|
  {
    if ms != [] {
      MarkerAreasAt(ms[..|ms| - 1]);
    }
  }

  /** The cards, in board order, whose closed rectangle meets the band. */
  function Touching(cs: seq<Card>, b: Band): seq<Card>
    reads cs
  {
    if cs == [] then []
    else Touching(cs[..|cs| - 1], b) + (if Touches(cs[|cs| - 1].Area(), b) then [cs[|cs| - 1]] else [])
  }

  /**
   * `_select_cards_in_rectangle`: nothing without a start point or for a
   * band under 5 px on either side; otherwise the cards the band touches.
   */
  function SelectedBy(cs: seq<Card>, start: Option<(int, int)>, ex: int, ey: int): seq<Card>
    reads cs
  {
    if start.None? then []
    else
      var b := BandOf(start.value.0, start.value.1, ex, ey);
      if TooSmall(b) then [] else Touching(cs, b)
  }

  /**
   * The selection is exactly the touched cards, in board order: every card
   * it holds is on the board and touches the band, every card on the board
   * that touches the band is in it, and no card appears twice.
   */
  lemma {:induction false} TouchingExactly(cs: seq<Card>, b: Band)
    ensures IsSubseq(Touching(cs, b), cs)
    ensures forall c :: c in Touching(cs, b) ==> c in cs && Touches(c.Area(), b)
    ensures forall i :: 0 <= i < |cs| && Touches(cs[i].Area(), b) ==> cs[i] in Touching(cs, b)
    ensures NoDups(cs) ==> NoDups(Touching(cs, b))
    decreases |cs|
  {
    if cs != [] {
      var init, last := cs[..|cs| - 1], cs[|cs| - 1];
      TouchingExactly(init, b);
      var t := Touching(init, b);
      assert cs == init + [last];
      SubseqAppend(t, init, last);
      if Touches(last.Area(), b) {
        assert Touching(cs, b) == t + [last];
        if NoDups(cs) {
          assert last !in init;
          NoDupsAppend(t, last);
        }
      } else {
        assert Touching(cs, b) == t;
      }
      forall i | 0 <= i < |cs| && Touches(cs[i].Area(), b) ensures cs[i] in Touching(cs, b) {
        if i < |init| {
          assert cs[i] == init[i];
        }
      }
    }
  }

  /** What the opponent's window draws for the cards, in board order. */
  function OpponentView(cs: seq<Card>): (v: seq<Sprite>)
    reads cs
    ensures |v| == |cs|
  {
    if cs == [] then []
    else OpponentView(cs[..|cs| - 1]) + [OpponentSprite(cs[|cs| - 1].Area(), cs[|cs| - 1].faceUp)]
  }

  /**
   * Every card is drawn half a turn round, at `(960 - (x + w), 720 - (y + h))`,
   * and shows its back exactly when it lies below the hand line or is face down.
   */
  lemma {:induction false} OpponentViewRule(cs: seq<Card>)
    ensures forall i :: 0 <= i < |cs| ==>
              OpponentView(cs)[i].at == Rect(BoardWidth - (cs[i].x + cs[i].width), BoardHeight - (cs[i].y + cs[i].height), cs[i].width, cs[i].height)
              && (OpponentView(cs)[i].showsBack <==> cs[i].y > HandLine || !cs[i].faceUp)
    decreases |cs|
  {
    if cs != [] {
      OpponentViewRule(cs[..|cs| - 1]);
    }
  }

  // ---------------------------------------------------------------- card flags

  /** `reverse_card`: turn the card over; it becomes revealed when it ends face up. */
  function Reversed(f: Flags): Flags {
    Flags(!f.faceUp, if !f.faceUp then true else f.revealed)
  }

  /** `face_up_selected_cards` and `face_down_selected_cards` set both flags alike. */
  const ShownFlags := Flags(true, true)
  const HiddenFlags := Flags(false, false)

  /** Turning a card over never clears `revealed`, and a card that ends face up is revealed. */
  lemma ReverseKeepsRevealed(f: Flags)
    ensures Reversed(f).faceUp == !f.faceUp
    ensures f.revealed ==> Reversed(f).revealed
    ensures Reversed(f).faceUp ==> Reversed(f).revealed
  {
  }

  /** Turning a card over twice restores its side and leaves it revealed. */
  lemma ReverseTwice(f: Flags)
    ensures Reversed(Reversed(f)) == Flags(f.faceUp, true)
  {
  }

  /** Turning a shown card over is not the same as turning it face down with the selection: only the latter hides it. */
  lemma ReverseIsNotFaceDown()
    ensures Reversed(ShownFlags) == Flags(false, true) && Reversed(ShownFlags) != HiddenFlags
    ensures Reversed(HiddenFlags) == ShownFlags
  {
  }

  // ---------------------------------------------------------------- deck and board lists

  /** The deck and the board together hold the same cards before and after. */
  predicate SameCards<T(==)>(deck: seq<T>, board: seq<T>, deck2: seq<T>, board2: seq<T>) {
    multiset(deck) + multiset(board) == multiset(deck2) + multiset(board2)
  }

  /** `draw_from_deck`'s list effect: the top card leaves the deck for the end of the board list. */
  function Drawn<T>(deck: seq<T>, board: seq<T>): (seq<T>, seq<T>) {
    if deck == [] then (deck, board) else (deck[1..], board + [deck[0]])
  }

  /**
   * `_select_card_from_deck`'s list effect: the card in row k leaves the deck
   * for the end of the board list; a row past the end changes nothing.
   */
  function Picked<T>(deck: seq<T>, board: seq<T>, k: nat): (seq<T>, seq<T>) {
    if k < |deck| then (deck[..k] + deck[k + 1..], board + [deck[k]]) else (deck, board)
  }

  /**
   * `move_to_deck_top` / `move_to_deck_bottom`'s list effect: a card on the
   * board goes to the top or the bottom of the deck; any other changes nothing.
   */
  function Returned<T(==)>(deck: seq<T>, board: seq<T>, c: T, toTop: bool): (seq<T>, seq<T>) {
    if c !in board then (deck, board)
    else ((if toTop then [c] + deck else deck + [c]), RemoveFirst(board, c))
  }

  /** Drawing is picking the top row. */
  lemma DrawIsPickOfTop<T>(deck: seq<T>, board: seq<T>)
    ensures Drawn(deck, board) == Picked(deck, board, 0)
  {
    if deck != [] {
      assert deck[..0] + deck[1..] == deck[1..];
    }
  }

  /** Picking a card moves it and loses or duplicates nothing. */
  lemma PickKeepsCards<T>(deck: seq<T>, board: seq<T>, k: nat)
    ensures SameCards(deck, board, Picked(deck, board, k).0, Picked(deck, board, k).1)
    ensures k < |deck| ==> |Picked(deck, board, k).0| == |deck| - 1 && Picked(deck, board, k).1 == board + [deck[k]]
  {
    if k < |deck| {
      assert deck == deck[..k] + [deck[k]] + deck[k + 1..];
    }
  }

  /** Returning a card to the deck loses or duplicates nothing. */
  lemma ReturnKeepsCards<T>(deck: seq<T>, board: seq<T>, c: T, toTop: bool)
    ensures SameCards(deck, board, Returned(deck, board, c, toTop).0, Returned(deck, board, c, toTop).1)
  {
  }

  /** A card drawn and put straight back on top restores the deck and the board. */
  lemma DrawThenReturnTop<T>(deck: seq<T>, board: seq<T>)
    requires deck != [] && deck[0] !in board
    ensures var (d, b) := Drawn(deck, board); Returned(d, b, deck[0], true) == (deck, board)
  {
    RemoveFirstAppended(board, deck[0]);
    assert [deck[0]] + deck[1..] == deck;
  }

  /** A card drawn and put back under the deck moves from the top to the bottom; the board is restored. */
  lemma DrawThenReturnBottom<T>(deck: seq<T>, board: seq<T>)
    requires deck != [] && deck[0] !in board
    ensures var (d, b) := Drawn(deck, board); Returned(d, b, deck[0], false) == (deck[1..] + [deck[0]], board)
  {
    RemoveFirstAppended(board, deck[0]);
  }

  // ---------------------------------------------------------------- z-order

  /** `bring_to_front`: the item moves to the end of its list (drawn last, so on top); an absent item changes nothing. */
  function ToFront<T(==)>(s: seq<T>, x: T): seq<T> {
    if x in s then RemoveFirst(s, x) + [x] else s
  }

  /** `send_to_back`: the item moves to the start of its list (drawn first, so underneath). */
  function ToBack<T(==)>(s: seq<T>, x: T): seq<T> {
    if x in s then [x] + RemoveFirst(s, x) else s
  }

  /** Both z-order moves only reorder the list, and put the item on top or at the bottom. */
  lemma ZOrderPermutes<T>(s: seq<T>, x: T)
    ensures multiset(ToFront(s, x)) == multiset(s) && multiset(ToBack(s, x)) == multiset(s)
    ensures x in s ==> ToFront(s, x)[|s| - 1] == x && ToBack(s, x)[0] == x
  {
  }

  /** The other items keep their relative order: taking the moved item out again gives the same list. */
  lemma ZOrderKeepsOthers<T>(s: seq<T>, x: T)
    requires NoDups(s) && x in s
    ensures RemoveFirst(ToFront(s, x), x) == RemoveFirst(s, x)
    ensures RemoveFirst(ToBack(s, x), x) == RemoveFirst(s, x)
    ensures NoDups(ToFront(s, x)) && NoDups(ToBack(s, x))
  {
    RemoveFirstNoDups(s, x);
    RemoveFirstAppended(RemoveFirst(s, x), x);
    NoDupsAppend(RemoveFirst(s, x), x);
    NoDupsPrepend(x, RemoveFirst(s, x));
  }

  /** Bringing an item to the front twice is the same as once; so is sending it back, and the last move wins. */
  lemma ZOrderIdempotent<T>(s: seq<T>, x: T)
    requires NoDups(s)
    ensures ToFront(ToFront(s, x), x) == ToFront(s, x)
    ensures ToBack(ToBack(s, x), x) == ToBack(s, x)
    ensures ToBack(ToFront(s, x), x) == ToBack(s, x)
    ensures ToFront(ToBack(s, x), x) == ToFront(s, x)
  {
    if x in s {
      ZOrderKeepsOthers(s, x);
    }
  }

  /**
   * `gather_selected_cards(shuffle=True)`'s list effect: the board cards that
   * were not gathered, in their order, then the gathered ones in shuffled order.
   */
  function Gathered<T(==)>(board: seq<T>, cards: seq<T>): seq<T> {
    Without(board, set c | c in cards) + cards
  }

  /** Gathering never duplicates a card, and brings in nothing but board cards and gathered cards. */
  lemma {:induction false} GatheredDistinct<T>(board: seq<T>, cards: seq<T>)
    requires NoDups(board) && NoDups(cards)
    ensures NoDups(Gathered(board, cards))
    ensures forall c :: c in Gathered(board, cards) ==> c in board || c in cards
  {
    var xs := set c | c in cards;
    var w := Without(board, xs);
    WithoutNoDups(board, xs);
    forall i, j | 0 <= i < |w| && 0 <= j < |cards| ensures w[i] != cards[j] {
      assert cards[j] in xs;
    }
    NoDupsConcat(w, cards);
  }

  /**
   * When the gathered cards are board cards, gathering only reorders the
   * board: the rest keep their order beneath, the gathered ones end on top.
   */
  lemma GatheredReorders<T>(board: seq<T>, cards: seq<T>)
    requires NoDups(board) && NoDups(cards)
    requires forall c :: c in cards ==> c in board
    ensures multiset(Gathered(board, cards)) == multiset(board)
    ensures NoDups(Gathered(board, cards))
    ensures IsSubseq(Without(board, set c | c in cards), board)
    ensures |Without(board, set c | c in cards)| == |board| - |cards|
  {
    var xs := set c | c in cards;
    WithoutThenAppendIsPermutation(board, cards);
    WithoutNoDups(board, xs);
    assert |multiset(Without(board, xs) + cards)| == |multiset(board)|;
    GatheredDistinct(board, cards);
  }
}
