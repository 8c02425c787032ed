/**
 * The deck file both programs share: main-deck ids one per line, then an
 * optional `[EX]` line followed by the EX ids, then `[Resource]` followed
 * by the card-back image name and the playmat image name.
 *
 * The editor writes it (`_perform_save`) and reads it back (`open_deck`,
 * a three-section machine that drops ids missing from the catalog). The
 * simulator reads it differently (`load_deck`): it cuts the cleaned lines
 * at the first `[Resource]` and then at the first `[EX]`, with no catalog.
 */
module DeckFormat {
  import opened Common
  import opened Text

  const ExHeader := "[EX]"
  const ResourceHeader := "[Resource]"
  const DefaultReverse := "reverse.png"
  const DefaultPlaymat := "playmat.png"

  /** `name or default`: an empty image name is replaced by the default one. */
  function OrDefault(name: string, default: string): (r: string)
    ensures r != []  <== default != []
    ensures name != [] ==> r == name
  {
    if name == "" then default else name
  }

  /** `_perform_save`: the lines written, in order. */
  function SaveDeckLines(main: seq<string>, ex: seq<string>, reverse: string, playmat: string): seq<string> {
    main + ExBlock(ex) + [ResourceHeader] + ImageNames(reverse, playmat)
  }

  /** `[EX]` and the EX ids, only when there are any. */
  function ExBlock(ex: seq<string>): seq<string> {
    if ex == [] then [] else [ExHeader] + ex
  }

  function ImageNames(reverse: string, playmat: string): seq<string> {
    [OrDefault(reverse, DefaultReverse), OrDefault(playmat, DefaultPlaymat)]
  }

  // ---------------------------------------------------------------------
  // The editor's reader
  // ---------------------------------------------------------------------

  datatype Part = MainPart | ExPart | ResourcePart

  /** The reader's variables: `current_section` and the three accumulator lists. */
  datatype OpenState = OpenState(part: Part, main: seq<string>, ex: seq<string>, resources: seq<string>)

  const OpenStart := OpenState(MainPart, [], [], [])

  /** One iteration of `open_deck`'s loop; `catalog` is the key set of `card_definitions`. */
  function OpenStep(catalog: set<string>, st: OpenState, raw: string): OpenState {
    var line := Strip(raw);
    if line == "" then st
    else if line == ExHeader then st.(part := ExPart)
    else if line == ResourceHeader then st.(part := ResourcePart)
    else match st.part
      case MainPart => if line in catalog then st.(main := st.main + [line]) else st
      case ExPart => if line in catalog then st.(ex := st.ex + [line]) else st
      case ResourcePart => st.(resources := st.resources + [line])
  }

  /** The loop over a prefix of the file. */
  function OpenRun(catalog: set<string>, st: OpenState, lines: seq<string>): OpenState {
    if lines == [] then st else OpenStep(catalog, OpenRun(catalog, st, lines[..|lines| - 1]), lines[|lines| - 1])
  }

  /** What `open_deck` puts in place: both decks and the two image names. */
  datatype DeckContents = DeckContents(main: seq<string>, ex: seq<string>, reverse: string, playmat: string)

  /** The image names after the loop: the first two resource lines, or the defaults. */
  function OpenResult(st: OpenState): (d: DeckContents)
    ensures d.main == st.main && d.ex == st.ex
    ensures d.reverse == (if |st.resources| > 0 then st.resources[0] else DefaultReverse)
    ensures d.playmat == (if |st.resources| > 1 then st.resources[1] else DefaultPlaymat)
  {
    DeckContents(st.main, st.ex,
                 if |st.resources| > 0 then st.resources[0] else DefaultReverse,
                 if |st.resources| > 1 then st.resources[1] else DefaultPlaymat)
  }

  function OpenDeckFile(catalog: set<string>, lines: seq<string>): DeckContents {
    OpenResult(OpenRun(catalog, OpenStart, lines))
  }

  lemma {:induction false} OpenRunAppend(catalog: set<string>, st: OpenState, a: seq<string>, b: seq<string>)
    ensures OpenRun(catalog, st, a + b) == OpenRun(catalog, OpenRun(catalog, st, a), b)
    decreases |b|
  {
    if b == [] {
      assert a + b == a;
    } else {
      assert (a + b)[..|a + b| - 1] == a + b[..|b| - 1];
      OpenRunAppend(catalog, st, a, b[..|b| - 1]);
    }
  }

  /** Every id in either deck is a catalog id. */
  predicate DecksInCatalog(catalog: set<string>, st: OpenState) {
    (forall i :: 0 <= i < |st.main| ==> st.main[i] in catalog)
    && (forall i :: 0 <= i < |st.ex| ==> st.ex[i] in catalog)
  }

  /** Ids missing from the catalog never reach either deck. */
  lemma {:induction false} OpenKeepsCatalogIds(catalog: set<string>, lines: seq<string>)
    ensures DecksInCatalog(catalog, OpenRun(catalog, OpenStart, lines))
    decreases |lines|
  {
    if lines != [] {
      var init := lines[..|lines| - 1];
      OpenKeepsCatalogIds(catalog, init);
      OpenStepKeepsCatalogIds(catalog, OpenRun(catalog, OpenStart, init), lines[|lines| - 1]);
    }
  }

  lemma OpenStepKeepsCatalogIds(catalog: set<string>, st: OpenState, raw: string)
    requires DecksInCatalog(catalog, st)
    ensures DecksInCatalog(catalog, OpenStep(catalog, st, raw))
  {
  }

  /** A line that reads back as itself and is not a section header. */
  predicate DeckLine(s: string) {
    s != [] && IsStripped(s) && OneLine(s) && s != ExHeader && s != ResourceHeader
  }

  /** An image name the editor writes as itself or replaces by the default. */
  predicate ImageName(s: string) {
    s == [] || DeckLine(s)
  }

  /** The current section's list with ls appended. */
  function Extend(st: OpenState, ls: seq<string>): OpenState {
    match st.part
    case MainPart => st.(main := st.main + ls)
    case ExPart => st.(ex := st.ex + ls)
    case ResourcePart => st.(resources := st.resources + ls)
  }

  lemma ExtendStep(catalog: set<string>, st: OpenState, init: seq<string>, line: string)
    requires DeckLine(line) && (st.part != ResourcePart ==> line in catalog)
    ensures OpenStep(catalog, Extend(st, init), line) == Extend(st, init + [line])
  {
    assert Strip(line) == line;
    assert st.main + init + [line] == st.main + (init + [line]);
    assert st.ex + init + [line] == st.ex + (init + [line]);
    assert st.resources + init + [line] == st.resources + (init + [line]);
  }

  /** Lines outside any header land, in order, in the current section's list. */
  lemma {:induction false} OpenLinesRead(catalog: set<string>, st: OpenState, ls: seq<string>)
    requires forall i :: 0 <= i < |ls| ==> DeckLine(ls[i])
    requires st.part != ResourcePart ==> forall i :: 0 <= i < |ls| ==> ls[i] in catalog
    ensures OpenRun(catalog, st, ls) == Extend(st, ls)
    decreases |ls|
  {
    if ls == [] {
      assert st.main + ls == st.main && st.ex + ls == st.ex && st.resources + ls == st.resources;
    } else {
      var init := ls[..|ls| - 1];
      OpenLinesRead(catalog, st, init);
      ExtendStep(catalog, st, init, ls[|ls| - 1]);
      assert init + [ls[|ls| - 1]] == ls;
    }
  }

  lemma HeaderLine(catalog: set<string>, st: OpenState, h: string)
    requires h == ExHeader || h == ResourceHeader
    ensures OpenRun(catalog, st, [h]) == st.(part := if h == ExHeader then ExPart else ResourcePart)
  {
    assert [h][..0] == [];
    assert IsStripped(h);
  }

  lemma ImageNamesAreDeckLines(reverse: string, playmat: string)
    requires ImageName(reverse) && ImageName(playmat)
    ensures |ImageNames(reverse, playmat)| == 2
    ensures forall i :: 0 <= i < 2 ==> DeckLine(ImageNames(reverse, playmat)[i])
  {
    assert DeckLine(DefaultReverse) && DeckLine(DefaultPlaymat);
  }

  /** The id lines of a saved file read as the two decks. */
  lemma OpenCardsRead(catalog: set<string>, main: seq<string>, ex: seq<string>)
    requires forall i :: 0 <= i < |main| ==> DeckLine(main[i]) && main[i] in catalog
    requires forall i :: 0 <= i < |ex| ==> DeckLine(ex[i]) && ex[i] in catalog
    ensures OpenRun(catalog, OpenStart, main + ExBlock(ex)).main == main
    ensures OpenRun(catalog, OpenStart, main + ExBlock(ex)).ex == ex
    ensures OpenRun(catalog, OpenStart, main + ExBlock(ex)).resources == []
  {
    OpenLinesRead(catalog, OpenStart, main);
    var st1 := OpenState(MainPart, main, [], []);
    assert [] + main == main;
    OpenRunAppend(catalog, OpenStart, main, ExBlock(ex));
    if ex == [] {
      assert main + ExBlock(ex) == main;
    } else {
      OpenRunAppend(catalog, st1, [ExHeader], ex);
      HeaderLine(catalog, st1, ExHeader);
      OpenLinesRead(catalog, st1.(part := ExPart), ex);
      assert [] + ex == ex;
    }
  }

  /**
   * Opening what the editor saved gives back both decks and both image
   * names (empty names come back as the defaults), when every id is in
   * the catalog and no id or name is blank, padded, broken over lines or
   * equal to a header.
   */
  lemma SaveOpenRoundTrip(catalog: set<string>, main: seq<string>, ex: seq<string>, reverse: string, playmat: string)
    requires forall i :: 0 <= i < |main| ==> DeckLine(main[i]) && main[i] in catalog
    requires forall i :: 0 <= i < |ex| ==> DeckLine(ex[i]) && ex[i] in catalog
    requires ImageName(reverse) && ImageName(playmat)
    ensures OpenDeckFile(catalog, SaveDeckLines(main, ex, reverse, playmat))
            == DeckContents(main, ex, OrDefault(reverse, DefaultReverse), OrDefault(playmat, DefaultPlaymat))
  {
    var cards := main + ExBlock(ex);
    var names := ImageNames(reverse, playmat);
    OpenCardsRead(catalog, main, ex);
    var st := OpenRun(catalog, OpenStart, cards);
    ThroughResourceHeader(catalog, cards);
    ImageNamesAreDeckLines(reverse, playmat);
    ImageNamesRead(catalog, st.(part := ResourcePart), names);
    OpenRunAppend(catalog, OpenStart, cards + [ResourceHeader], names);
    assert SaveDeckLines(main, ex, reverse, playmat) == cards + [ResourceHeader] + names;
  }

  lemma ThroughResourceHeader(catalog: set<string>, cards: seq<string>)
    ensures OpenRun(catalog, OpenStart, cards + [ResourceHeader]) == OpenRun(catalog, OpenStart, cards).(part := ResourcePart)
  {
    OpenRunAppend(catalog, OpenStart, cards, [ResourceHeader]);
    HeaderLine(catalog, OpenRun(catalog, OpenStart, cards), ResourceHeader);
  }

  /** Two image lines land, in order, in an empty resource list and are read as the two names. */
  lemma ImageNamesRead(catalog: set<string>, st: OpenState, names: seq<string>)
    requires st.part == ResourcePart && st.resources == []
    requires |names| == 2 && DeckLine(names[0]) && DeckLine(names[1])
    ensures OpenResult(OpenRun(catalog, st, names)) == DeckContents(st.main, st.ex, names[0], names[1])
  {
    OpenLinesRead(catalog, st, names);
    assert [] + names == names;
  }

  // ---------------------------------------------------------------------
  // The simulator's reader
  // ---------------------------------------------------------------------

  /** `[line.strip() for line in file if line.strip()]`. */
  function Cleaned(lines: seq<string>): (r: seq<string>)
    ensures forall i :: 0 <= i < |r| ==> r[i] != [] && IsStripped(r[i])
    ensures |r| <= |lines|
  {
    if lines == [] then []
    else
      var line := Strip(lines[|lines| - 1]);
      Cleaned(lines[..|lines| - 1]) + (if line == "" then [] else [line])
  }

  /** Lines that are already stripped and non-blank survive the cleaning unchanged. */
  lemma {:induction false} CleanedKeepsStripped(lines: seq<string>)
    requires forall i :: 0 <= i < |lines| ==> lines[i] != [] && IsStripped(lines[i])
    ensures Cleaned(lines) == lines
    decreases |lines|
  {
    if lines != [] {
      var last := lines[|lines| - 1];
      CleanedKeepsStripped(lines[..|lines| - 1]);
      assert Strip(last) == last;
      assert lines[..|lines| - 1] + [last] == lines;
    }
  }

  /**
   * The list cut at the first h: what comes before it and what comes after
   * it; with no h, all of it and nothing.
   */
  function CutAt(ls: seq<string>, h: string): (r: (seq<string>, seq<string>))
    ensures h !in r.0
    ensures h in ls ==> ls == r.0 + [h] + r.1
    ensures h !in ls ==> r == (ls, [])
  {
    if h in ls then
      var k := FirstIndex(ls, h);
      assert ls == ls[..k] + [h] + ls[k + 1..];
      (ls[..k], ls[k + 1..])
    else (ls, [])
  }

  /** The cut falls at the first h and nowhere else. */
  lemma CutAtFirst(a: seq<string>, h: string, b: seq<string>)
    requires h !in a
    ensures CutAt(a + [h] + b, h) == (a, b)
  {
    var r := CutAt(a + [h] + b, h);
    var s := a + [h] + b;
    FirstIndexAfter(a, h, b);
    assert s[..|a|] == a && s[|a| + 1..] == b;
  }

  /** What `load_deck` takes from a deck file: the two decks' ids and the two image paths. */
  datatype DeckSplit = DeckSplit(main: seq<string>, ex: seq<string>, reversePath: string, playmatPath: string)

  /**
   * `load_deck`: everything after the first `[Resource]` is resources, the
   * rest is cut at the first `[EX]`; missing image names fall back to
   * `resource/reverse.png` and `resource/playmat.png`.
   */
  function SplitDeckFile(lines: seq<string>): (d: DeckSplit)
    ensures ExHeader !in d.main && ResourceHeader !in d.main && ResourceHeader !in d.ex
    ensures |d.main| + |d.ex| <= |Cleaned(lines)|
  {
    var (cards, res) := CutAt(Cleaned(lines), ResourceHeader);
    var (main, ex) := CutAt(cards, ExHeader);
    DeckSplit(main, ex,
              ResourcePath(if |res| > 0 then res[0] else DefaultReverse),
              ResourcePath(if |res| > 1 then res[1] else DefaultPlaymat))
  }

  /**
   * The simulator reads a file the editor saved as the same two decks, with
   * the image names placed under `resource/`.
   */
  lemma SimulatorReadsSavedDeck(main: seq<string>, ex: seq<string>, reverse: string, playmat: string)
    requires forall i :: 0 <= i < |main| ==> DeckLine(main[i])
    requires forall i :: 0 <= i < |ex| ==> DeckLine(ex[i])
    requires ImageName(reverse) && ImageName(playmat)
    ensures SplitDeckFile(SaveDeckLines(main, ex, reverse, playmat))
            == DeckSplit(main, ex, ResourcePath(OrDefault(reverse, DefaultReverse)), ResourcePath(OrDefault(playmat, DefaultPlaymat)))
  {
    ResourceCut(main, ex, reverse, playmat);
    ExCut(main, ex);
  }

  lemma ResourceCut(main: seq<string>, ex: seq<string>, reverse: string, playmat: string)
    requires forall i :: 0 <= i < |main| ==> DeckLine(main[i])
    requires forall i :: 0 <= i < |ex| ==> DeckLine(ex[i])
    requires ImageName(reverse) && ImageName(playmat)
    ensures CutAt(Cleaned(SaveDeckLines(main, ex, reverse, playmat)), ResourceHeader) == (main + ExBlock(ex), ImageNames(reverse, playmat))
  {
    SavedLinesClean(main, ex, reverse, playmat);
    NoResourceHeader(main, ex);
    CutAtFirst(main + ExBlock(ex), ResourceHeader, ImageNames(reverse, playmat));
  }

  lemma NoResourceHeader(main: seq<string>, ex: seq<string>)
    requires forall i :: 0 <= i < |main| ==> DeckLine(main[i])
    requires forall i :: 0 <= i < |ex| ==> DeckLine(ex[i])
    ensures ResourceHeader !in main + ExBlock(ex)
  {
    var c := main + ExBlock(ex);
    assert |ExHeader| != |ResourceHeader|;
    forall k | 0 <= k < |c| ensures c[k] != ResourceHeader {
      if k < |main| {
        assert c[k] == main[k];
      } else if k > |main| {
        assert c[k] == ex[k - |main| - 1];
      }
    }
  }

  lemma ExCut(main: seq<string>, ex: seq<string>)
    requires forall i :: 0 <= i < |main| ==> DeckLine(main[i])
    ensures CutAt(main + ExBlock(ex), ExHeader) == (main, ex)
  {
    assert ExHeader !in main;
    if ex != [] {
      assert main + ExBlock(ex) == main + [ExHeader] + ex;
      CutAtFirst(main, ExHeader, ex);
    } else {
      assert main + ExBlock(ex) == main;
    }
  }

  lemma SavedLinesClean(main: seq<string>, ex: seq<string>, reverse: string, playmat: string)
    requires forall i :: 0 <= i < |main| ==> DeckLine(main[i])
    requires forall i :: 0 <= i < |ex| ==> DeckLine(ex[i])
    requires ImageName(reverse) && ImageName(playmat)
    ensures Cleaned(SaveDeckLines(main, ex, reverse, playmat)) == SaveDeckLines(main, ex, reverse, playmat)
  {
    ImageNamesAreDeckLines(reverse, playmat);
    var lines := SaveDeckLines(main, ex, reverse, playmat);
    assert IsStripped(ExHeader) && IsStripped(ResourceHeader);
    forall i | 0 <= i < |lines| ensures lines[i] != [] && IsStripped(lines[i]) {
      var c := main + ExBlock(ex);
      if i < |main| {
        assert lines[i] == main[i];
      } else if i < |c| {
        assert lines[i] == ExBlock(ex)[i - |main|];
        if i > |main| {
          assert lines[i] == ex[i - |main| - 1];
        }
      } else if i > |c| {
        assert lines[i] == ImageNames(reverse, playmat)[i - |c| - 1];
      }
    }
    CleanedKeepsStripped(lines);
  }
}
