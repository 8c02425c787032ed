/**
 * The simulator's board-save text format (`save_board` / `load_board`).
 *
 *   [Resource]            reverse image name, playmat image name
 *   [Deck]                one card id per line, top of the deck first
 *   [Board]               id,x,y,rotated,face_up,revealed   (flags as 0/1)
 *   [Markers]             type,text,x,y,width,height,chip_color
 *
 * Marker text has each newline written as the two characters `\n`. The
 * reader strips every line, skips blank ones, switches section on the four
 * headers, ignores board rows that do not have exactly 6 fields and marker
 * rows that have neither 5 (an older layout without type and colour) nor at
 * least 7; a number that `int()` rejects aborts the load where it stands.
 */
module BoardFile {
  import opened Common
  import opened Text

  datatype CardRow = CardRow(id: string, x: int, y: int, rotated: bool, faceUp: bool, revealed: bool)
  datatype MarkerRow = MarkerRow(kind: string, text: string, x: int, y: int, width: int, height: int, chipColor: string)

  /** What `save_board` writes: the two image names, the deck ids, the board cards and the markers. */
  datatype Snapshot = Snapshot(reverse: string, playmat: string, deck: seq<string>, board: seq<CardRow>, markers: seq<MarkerRow>)

  const ResourceHeader := "[Resource]"
  const DeckHeader := "[Deck]"
  const BoardHeader := "[Board]"
  const MarkersHeader := "[Markers]"

  predicate IsHeader(line: string) {
    line == ResourceHeader || line == DeckHeader || line == BoardHeader || line == MarkersHeader
  }

  /** `text.replace('\n', '\\n')`. */
  function Escape(t: string): (e: string)
    ensures '\n' !in e
    ensures forall c :: c != '\n' && c != '\\' && c != 'n' ==> (c in e <==> c in t)
  {
    if t == [] then []
    else (if t[0] == '\n' then "\\n" else [t[0]]) + Escape(t[1..])
  }

  /** `text.replace('\\n', '\n')`: every two-character `\n`, left to right, becomes a newline. */
  function Unescape(e: string): string {
    if e == [] then []
    else if |e| >= 2 && e[0] == '\\' && e[1] == 'n' then ['\n'] + Unescape(e[2..])
    else [e[0]] + Unescape(e[1..])
  }

  /** t holds a backslash directly followed by the letter n. */
  predicate HasEscapeSequence(t: string) {
    exists i :: 0 <= i < |t| - 1 && t[i] == '\\' && t[i + 1] == 'n'
  }

  /** Unescaping undoes escaping unless the text already held a literal `\n`. */
  lemma {:induction false} UnescapeEscape(t: string)
    requires !HasEscapeSequence(t)
    ensures Unescape(Escape(t)) == t
    decreases |t|
  {
    if t != [] {
      assert !HasEscapeSequence(t[1..]) by {
        forall i | 0 <= i < |t[1..]| - 1 ensures !(t[1..][i] == '\\' && t[1..][i + 1] == 'n') {
          assert t[1..][i] == t[i + 1] && t[1..][i + 1] == t[i + 2];
        }
      }
      UnescapeEscape(t[1..]);
      var rest := Escape(t[1..]);
      if t[0] == '\n' {
        assert Escape(t) == "\\n" + rest;
        assert (("\\n" + rest)[2..]) == rest;
      } else {
        assert Escape(t) == [t[0]] + rest;
        if t[0] == '\\' && rest != [] {
          assert t[1] != 'n';
          assert rest[0] == (if t[1] == '\n' then '\\' else t[1]);
        }
        assert ([t[0]] + rest)[1..] == rest;
      }
      assert t == [t[0]] + t[1..];
    }
  }

  /** A literal `\n` in marker text does not survive: it comes back as a newline. */
  lemma EscapeSequenceIsLost()
    ensures Unescape(Escape("a\\nb")) == "a\nb"
  {
    assert Escape("a\\nb") == "a\\nb";
    assert Unescape("a\\nb") == ['a'] + Unescape("\\nb");
    assert Unescape("\\nb") == ['\n'] + Unescape("b");
  }

  /** `int(flag)` of a bool: 1 or 0. */
  function Flag(b: bool): string {
    IntToString(if b then 1 else 0)
  }

  function CardLine(r: CardRow): string {
    Join([r.id, IntToString(r.x), IntToString(r.y), Flag(r.rotated), Flag(r.faceUp), Flag(r.revealed)], ',')
  }

  function MarkerLine(m: MarkerRow): string {
    Join([m.kind, Escape(m.text), IntToString(m.x), IntToString(m.y), IntToString(m.width), IntToString(m.height), m.chipColor], ',')
  }

  function CardLines(rows: seq<CardRow>): (ls: seq<string>)
    ensures |ls| == |rows|
  {
    if rows == [] then [] else CardLines(rows[..|rows| - 1]) + [CardLine(rows[|rows| - 1])]
  }

  function MarkerLines(rows: seq<MarkerRow>): (ls: seq<string>)
    ensures |ls| == |rows|
  {
    if rows == [] then [] else MarkerLines(rows[..|rows| - 1]) + [MarkerLine(rows[|rows| - 1])]
  }

  /** `save_board`: the lines of the file, in order. */
  function SaveLines(s: Snapshot): seq<string> {
    [ResourceHeader, s.reverse, s.playmat, DeckHeader] + s.deck
    + [BoardHeader] + CardLines(s.board)
    + [MarkersHeader] + MarkerLines(s.markers)
  }

  datatype Section = NoSection | ResourceSection | DeckSection | BoardSection | MarkersSection

  /** The reader's variables: the current section, the resource lines, the three lists, and whether `int()` raised. */
  datatype LoadState = LoadState(section: Section, resources: seq<string>, deck: seq<string>,
                                 board: seq<CardRow>, markers: seq<MarkerRow>, failed: bool)

  const Start := LoadState(NoSection, [], [], [], [], false)

  /** The outcome of parsing one comma row. */
  datatype RowParse<T> = Skip | BadNumber | Row(value: T)

  /** A `[Board]` row: exactly six fields, the last five read with `int()`, flags true when non-zero. */
  function CardRowOf(line: string): RowParse<CardRow> {
    var p := Split(line, ',');
    if |p| != 6 then Skip
    else match (ParseInt(p[1]), ParseInt(p[2]), ParseInt(p[3]), ParseInt(p[4]), ParseInt(p[5]))
      case (Some(x), Some(y), Some(r), Some(f), Some(v)) => Row(CardRow(p[0], x, y, r != 0, f != 0, v != 0))
      case _ => BadNumber
  }

  /** A `[Markers]` row: the first seven of at least seven fields, or the five-field layout. */
  function MarkerRowOf(line: string): RowParse<MarkerRow> {
    var p := Split(line, ',');
    if |p| >= 7 then MarkerFields(p[0], p[1], p[2], p[3], p[4], p[5], p[6])
    else if |p| == 5 then MarkerFields("marker", p[0], p[1], p[2], p[3], p[4], "")
    else Skip
  }

  function MarkerFields(kind: string, text: string, x: string, y: string, w: string, h: string, color: string): RowParse<MarkerRow> {
    match (ParseInt(x), ParseInt(y), ParseInt(w), ParseInt(h))
    case (Some(xv), Some(yv), Some(wv), Some(hv)) =>
      Row(MarkerRow(if kind == "" then "marker" else kind, Unescape(text), xv, yv, wv, hv, color))
    case _ => BadNumber
  }

  /** One iteration of the reader's loop on one (unstripped) line. */
  function Step(st: LoadState, raw: string): LoadState {
    StepLine(st, Strip(raw))
  }

  /** The loop body once the line is stripped: a header switches section, other lines go to the current one. */
  function StepLine(st: LoadState, line: string): LoadState {
    if st.failed || line == "" then st
    else if line == ResourceHeader then st.(section := ResourceSection, resources := [])
    else if line == DeckHeader then st.(section := DeckSection)
    else if line == BoardHeader then st.(section := BoardSection)
    else if line == MarkersHeader then st.(section := MarkersSection)
    else match st.section
      case NoSection => st
      case ResourceSection => st.(resources := st.resources + [line])
      case DeckSection => st.(deck := st.deck + [line])
      case BoardSection => WithCardRow(st, CardRowOf(line))
      case MarkersSection => WithMarkerRow(st, MarkerRowOf(line))
  }

  /** A parsed `[Board]` row is appended; a bad number stops the reader. */
  function WithCardRow(st: LoadState, p: RowParse<CardRow>): LoadState {
    match p
    case Skip => st
    case BadNumber => st.(failed := true)
    case Row(r) => st.(board := st.board + [r])
  }

  /** A parsed `[Markers]` row is appended; a bad number stops the reader. */
  function WithMarkerRow(st: LoadState, p: RowParse<MarkerRow>): LoadState {
    match p
    case Skip => st
    case BadNumber => st.(failed := true)
    case Row(m) => st.(markers := st.markers + [m])
  }

  /** The reader's loop over a prefix of the file. */
  function Run(st: LoadState, lines: seq<string>): LoadState {
    if lines == [] then st else Step(Run(st, lines[..|lines| - 1]), lines[|lines| - 1])
  }

  /** `load_board` on the lines of a file. */
  function Load(lines: seq<string>): LoadState {
    Run(Start, lines)
  }

  lemma {:induction false} RunAppend(st: LoadState, a: seq<string>, b: seq<string>)
    ensures Run(st, a + b) == Run(Run(st, a), b)
    decreases |b|
  {
    if b == [] {
      assert a + b == a;
    } else {
      assert (a + b)[..|a + b| - 1] == a + b[..|b| - 1];
      RunAppend(st, a, b[..|b| - 1]);
    }
  }

  /** Once `int()` has raised, the rest of the file is not read: the load is not atomic. */
  lemma {:induction false} FailureStops(st: LoadState, lines: seq<string>)
    requires st.failed
    ensures Run(st, lines) == st
    decreases |lines|
  {
    if lines != [] {
      FailureStops(st, lines[..|lines| - 1]);
    }
  }

  /**
   * A number `int()` rejects in a board row ends the load: what was read
   * before it stays loaded, nothing after it is read.
   */
  lemma PartialLoad(before: seq<string>, bad: string, after: seq<string>)
    requires Load(before).section == BoardSection && !Load(before).failed
    requires Strip(bad) != [] && !IsHeader(Strip(bad)) && CardRowOf(Strip(bad)) == BadNumber
    ensures Load(before + [bad] + after) == Load(before).(failed := true)
  {
    var st := Load(before);
    RunLast(Start, before + [bad]);
    assert (before + [bad])[..|before|] == before;
    BadRowFails(st, bad);
    RunAppend(Start, before + [bad], after);
    FailureStops(st.(failed := true), after);
  }

  lemma BadRowFails(st: LoadState, bad: string)
    requires st.section == BoardSection && !st.failed
    requires Strip(bad) != [] && !IsHeader(Strip(bad)) && CardRowOf(Strip(bad)) == BadNumber
    ensures Step(st, bad) == st.(failed := true)
  {
    RowLineStep(st, Strip(bad));
  }

  /** A board row with other than six fields changes nothing. */
  lemma BoardRowWrongWidthSkipped(st: LoadState, line: string)
    requires st.section == BoardSection && !st.failed
    requires Strip(line) == line && !IsHeader(line) && |Split(line, ',')| != 6
    ensures Step(st, line) == st
  {
  }

  function Fields(text: string, x: int, y: int, w: int, h: int): seq<string> {
    [text, IntToString(x), IntToString(y), IntToString(w), IntToString(h)]
  }

  /** The five-field marker layout reads as a plain marker without a chip colour. */
  lemma LegacyMarkerRow(text: string, x: int, y: int, w: int, h: int)
    requires ',' !in text
    ensures MarkerRowOf(Join(Fields(text, x, y, w, h), ',')) == Row(MarkerRow("marker", Unescape(text), x, y, w, h, ""))
  {
    var f := Fields(text, x, y, w, h);
    LegacyFieldsHaveNoComma(text, x, y, w, h);
    SplitJoin(f, ',');
    LegacyLayout(Join(f, ','), f);
    LegacyFieldsRead(text, x, y, w, h);
  }

  lemma LegacyFieldsHaveNoComma(text: string, x: int, y: int, w: int, h: int)
    requires ',' !in text
    ensures forall i :: 0 <= i < |Fields(text, x, y, w, h)| ==> ',' !in Fields(text, x, y, w, h)[i]
  {
    var f := Fields(text, x, y, w, h);
    NumberHasNoComma(x);
    NumberHasNoComma(y);
    NumberHasNoComma(w);
    NumberHasNoComma(h);
    forall i | 0 <= i < |f| ensures ',' !in f[i] {
      assert i == 0 || i == 1 || i == 2 || i == 3 || i == 4;
    }
  }

  lemma LegacyFieldsRead(text: string, x: int, y: int, w: int, h: int)
    ensures var f := Fields(text, x, y, w, h);
            MarkerFields("marker", f[0], f[1], f[2], f[3], f[4], "") == Row(MarkerRow("marker", Unescape(text), x, y, w, h, ""))
  {
    var f := Fields(text, x, y, w, h);
    IntToStringParses(x);
    IntToStringParses(y);
    IntToStringParses(w);
    IntToStringParses(h);
    MarkerFieldsParse("marker", text, f[1], f[2], f[3], f[4], "", x, y, w, h);
  }

  lemma LegacyLayout(line: string, p: seq<string>)
    requires Split(line, ',') == p && |p| == 5
    ensures MarkerRowOf(line) == MarkerFields("marker", p[0], p[1], p[2], p[3], p[4], "")
  {
  }

  /** How marker fields whose numbers all parse read. */
  lemma MarkerFieldsParse(kind: string, text: string, xs: string, ys: string, ws: string, hs: string, color: string,
                          x: int, y: int, w: int, h: int)
    requires ParseInt(xs) == Some(x) && ParseInt(ys) == Some(y) && ParseInt(ws) == Some(w) && ParseInt(hs) == Some(h)
    ensures MarkerFields(kind, text, xs, ys, ws, hs, color)
            == Row(MarkerRow(if kind == "" then "marker" else kind, Unescape(text), x, y, w, h, color))
  {
  }

  /** A name or id that reads back as itself on its own line. */
  predicate PlainLine(s: string) {
    s != [] && IsStripped(s) && OneLine(s) && !IsHeader(s)
  }

  /** A comma field that may stand first on a stripped line. */
  predicate LeadingField(s: string) {
    ',' !in s && OneLine(s) && (s == [] || !IsSpace(s[0]))
  }

  predicate CardRowSafe(r: CardRow) {
    LeadingField(r.id)
  }

  predicate MarkerRowSafe(m: MarkerRow) {
    LeadingField(m.kind) && m.kind != []
    && ',' !in m.text && '\r' !in m.text && !HasEscapeSequence(m.text)
    && ',' !in m.chipColor && OneLine(m.chipColor) && (m.chipColor == [] || !IsSpace(m.chipColor[|m.chipColor| - 1]))
  }

  /** What a snapshot must avoid for the file to read back as the same snapshot. */
  predicate SaveSafe(s: Snapshot) {
    PlainLine(s.reverse) && PlainLine(s.playmat)
    && (forall i :: 0 <= i < |s.deck| ==> PlainLine(s.deck[i]))
    && (forall i :: 0 <= i < |s.board| ==> CardRowSafe(s.board[i]))
    && (forall i :: 0 <= i < |s.markers| ==> MarkerRowSafe(s.markers[i]))
  }

  lemma HeadersHaveNoComma(line: string)
    requires ',' in line
    ensures !IsHeader(line)
  {
    assert ',' !in ResourceHeader && ',' !in DeckHeader && ',' !in BoardHeader && ',' !in MarkersHeader;
  }

  function CardFields(r: CardRow): seq<string> {
    [r.id, IntToString(r.x), IntToString(r.y), Flag(r.rotated), Flag(r.faceUp), Flag(r.revealed)]
  }

  lemma CardLineSplits(r: CardRow)
    requires CardRowSafe(r)
    ensures Split(CardLine(r), ',') == CardFields(r)
  {
    CardFieldsHaveNoComma(r);
    SplitJoin(CardFields(r), ',');
  }

  lemma CardFieldsHaveNoComma(r: CardRow)
    requires CardRowSafe(r)
    ensures forall i :: 0 <= i < |CardFields(r)| ==> ',' !in CardFields(r)[i]
  {
    var f := CardFields(r);
    NumberHasNoComma(r.x);
    NumberHasNoComma(r.y);
    NumberHasNoComma(if r.rotated then 1 else 0);
    NumberHasNoComma(if r.faceUp then 1 else 0);
    NumberHasNoComma(if r.revealed then 1 else 0);
    forall i | 0 <= i < |f| ensures ',' !in f[i] {
      assert i == 0 || i == 1 || i == 2 || i == 3 || i == 4 || i == 5;
    }
  }

  lemma CardLineParses(r: CardRow)
    requires CardRowSafe(r)
    ensures CardRowOf(CardLine(r)) == Row(r)
  {
    CardLineSplits(r);
    CardFieldsParse(r);
    CardRowOfFields(CardLine(r), CardFields(r), r.x, r.y, if r.rotated then 1 else 0,
                    if r.faceUp then 1 else 0, if r.revealed then 1 else 0);
  }

  lemma CardFieldsParse(r: CardRow)
    ensures ParseInt(CardFields(r)[1]) == Some(r.x) && ParseInt(CardFields(r)[2]) == Some(r.y)
    ensures ParseInt(CardFields(r)[3]) == Some(if r.rotated then 1 else 0)
    ensures ParseInt(CardFields(r)[4]) == Some(if r.faceUp then 1 else 0)
    ensures ParseInt(CardFields(r)[5]) == Some(if r.revealed then 1 else 0)
  {
    var p := CardFields(r);
    assert p[1] == IntToString(r.x) && p[2] == IntToString(r.y);
    assert p[3] == Flag(r.rotated) && p[4] == Flag(r.faceUp) && p[5] == Flag(r.revealed);
    IntToStringParses(r.x);
    IntToStringParses(r.y);
    FlagParses(r.rotated);
    FlagParses(r.faceUp);
    FlagParses(r.revealed);
  }

  /** How a six-field line whose numbers all parse reads. */
  lemma CardRowOfFields(line: string, p: seq<string>, x: int, y: int, rot: int, up: int, rev: int)
    requires Split(line, ',') == p && |p| == 6
    requires ParseInt(p[1]) == Some(x) && ParseInt(p[2]) == Some(y)
    requires ParseInt(p[3]) == Some(rot) && ParseInt(p[4]) == Some(up) && ParseInt(p[5]) == Some(rev)
    ensures CardRowOf(line) == Row(CardRow(p[0], x, y, rot != 0, up != 0, rev != 0))
  {
  }

  lemma FlagParses(b: bool)
    ensures ParseInt(Flag(b)) == Some(if b then 1 else 0)
  {
    IntToStringParses(if b then 1 else 0);
  }

  lemma CardLineShape(r: CardRow)
    requires CardRowSafe(r)
    ensures IsStripped(CardLine(r)) && CardLine(r) != [] && !IsHeader(CardLine(r))
  {
    var f := CardFields(r);
    var line := CardLine(r);
    JoinPrefix(f, ',');
    JoinSuffix(f, ',');
    assert line[|line| - 1] == f[5][|f[5]| - 1];
    assert r.id != [] ==> line[0] == r.id[0];
    assert line[|r.id|] == ',';
    HeadersHaveNoComma(line);
  }

  /** A stripped line that is not a header goes to the current section. */
  lemma RowLineStep(st: LoadState, line: string)
    requires !st.failed && IsStripped(line) && line != [] && !IsHeader(line)
    ensures st.section == BoardSection ==> Step(st, line) == WithCardRow(st, CardRowOf(line))
    ensures st.section == MarkersSection ==> Step(st, line) == WithMarkerRow(st, MarkerRowOf(line))
  {
    assert Strip(line) == line;
    assert line != ResourceHeader && line != DeckHeader && line != BoardHeader && line != MarkersHeader;
  }

  lemma CardLineReads(st: LoadState, r: CardRow)
    requires st.section == BoardSection && !st.failed && CardRowSafe(r)
    ensures Step(st, CardLine(r)) == st.(board := st.board + [r])
  {
    CardLineShape(r);
    RowLineStep(st, CardLine(r));
    CardLineParses(r);
  }

  function MarkerFieldList(m: MarkerRow): seq<string> {
    [m.kind, Escape(m.text), IntToString(m.x), IntToString(m.y), IntToString(m.width), IntToString(m.height), m.chipColor]
  }

  lemma MarkerFieldsHaveNoComma(m: MarkerRow)
    requires MarkerRowSafe(m)
    ensures forall i :: 0 <= i < |MarkerFieldList(m)| ==> ',' !in MarkerFieldList(m)[i]
  {
    var f := MarkerFieldList(m);
    NumberHasNoComma(m.x);
    NumberHasNoComma(m.y);
    NumberHasNoComma(m.width);
    NumberHasNoComma(m.height);
    EscapeHasNoComma(m.text);
    forall i | 0 <= i < |f| ensures ',' !in f[i] {
      assert i == 0 || i == 1 || i == 2 || i == 3 || i == 4 || i == 5 || i == 6;
    }
  }

  lemma EscapeHasNoComma(t: string)
    requires ',' !in t
    ensures ',' !in Escape(t)
  {
  }

  lemma NumberHasNoComma(n: int)
    ensures ',' !in IntToString(n)
  {
    var s := IntToString(n);
    assert forall k :: 0 <= k < |s| ==> s[k] != ',';
  }

  lemma MarkerLineSplits(m: MarkerRow)
    requires MarkerRowSafe(m)
    ensures Split(MarkerLine(m), ',') == MarkerFieldList(m)
  {
    MarkerFieldsHaveNoComma(m);
    SplitJoin(MarkerFieldList(m), ',');
  }

  /** A row of at least seven fields reads its first seven. */
  lemma WideMarkerRow(line: string, p: seq<string>)
    requires Split(line, ',') == p && |p| >= 7
    ensures MarkerRowOf(line) == MarkerFields(p[0], p[1], p[2], p[3], p[4], p[5], p[6])
  {
  }

  lemma MarkerFieldListReads(m: MarkerRow)
    requires MarkerRowSafe(m)
    ensures var f := MarkerFieldList(m); MarkerFields(f[0], f[1], f[2], f[3], f[4], f[5], f[6]) == Row(m)
  {
    var f := MarkerFieldList(m);
    var e, xs, ys, ws, hs := Escape(m.text), IntToString(m.x), IntToString(m.y), IntToString(m.width), IntToString(m.height);
    assert f[0] == m.kind && f[1] == e && f[2] == xs && f[3] == ys && f[4] == ws && f[5] == hs && f[6] == m.chipColor;
    IntToStringParses(m.x);
    IntToStringParses(m.y);
    IntToStringParses(m.width);
    IntToStringParses(m.height);
    UnescapeEscape(m.text);
    MarkerFieldsParse(m.kind, e, xs, ys, ws, hs, m.chipColor, m.x, m.y, m.width, m.height);
  }

  lemma MarkerLineParses(m: MarkerRow)
    requires MarkerRowSafe(m)
    ensures MarkerRowOf(MarkerLine(m)) == Row(m)
  {
    MarkerLineSplits(m);
    WideMarkerRow(MarkerLine(m), MarkerFieldList(m));
    MarkerFieldListReads(m);
  }

  lemma MarkerLineShape(m: MarkerRow)
    requires MarkerRowSafe(m)
    ensures IsStripped(MarkerLine(m)) && MarkerLine(m) != [] && !IsHeader(MarkerLine(m))
  {
    var f := MarkerFieldList(m);
    var line := MarkerLine(m);
    JoinPrefix(f, ',');
    JoinSuffix(f, ',');
    assert line[0] == m.kind[0];
    assert line[|m.kind|] == ',';
    if m.chipColor == [] {
      JoinAppend(f[..6], [f[6]], ',');
      assert f[..6] + [f[6]] == f;
      assert line == Join(f[..6], ',') + [','] + [];
      assert line[|line| - 1] == ',';
    } else {
      assert line[|line| - 1] == m.chipColor[|m.chipColor| - 1];
    }
    HeadersHaveNoComma(line);
  }

  lemma MarkerLineReads(st: LoadState, m: MarkerRow)
    requires st.section == MarkersSection && !st.failed && MarkerRowSafe(m)
    ensures Step(st, MarkerLine(m)) == st.(markers := st.markers + [m])
  {
    MarkerLineShape(m);
    RowLineStep(st, MarkerLine(m));
    MarkerLineParses(m);
  }

  /** The reader's loop on a non-empty prefix: the loop on all but the last line, then that line. */
  lemma RunLast(st: LoadState, lines: seq<string>)
    requires lines != []
    ensures Run(st, lines) == Step(Run(st, lines[..|lines| - 1]), lines[|lines| - 1])
  {
  }

  lemma DeckLineReads(st: LoadState, x: string)
    requires st.section == DeckSection && !st.failed && PlainLine(x)
    ensures Step(st, x) == st.(deck := st.deck + [x])
  {
  }

  lemma {:induction false} DeckLinesRead(st: LoadState, ids: seq<string>)
    requires st.section == DeckSection && !st.failed
    requires forall i :: 0 <= i < |ids| ==> PlainLine(ids[i])
    ensures Run(st, ids) == st.(deck := st.deck + ids)
    decreases |ids|
  {
    if ids == [] {
      assert st.deck + ids == st.deck;
    } else {
      assert st.deck + ids[..|ids| - 1] + [ids[|ids| - 1]] == st.deck + ids;
      DeckLinesRead(st, ids[..|ids| - 1]);
      RunLast(st, ids);
      DeckLineReads(Run(st, ids[..|ids| - 1]), ids[|ids| - 1]);
    }
  }

  lemma CardLinesLast(rows: seq<CardRow>)
    requires rows != []
    ensures CardLines(rows)[..|rows| - 1] == CardLines(rows[..|rows| - 1])
    ensures CardLines(rows)[|rows| - 1] == CardLine(rows[|rows| - 1])
  {
  }

  lemma {:induction false} CardLinesRead(st: LoadState, rows: seq<CardRow>)
    requires st.section == BoardSection && !st.failed
    requires forall i :: 0 <= i < |rows| ==> CardRowSafe(rows[i])
    ensures Run(st, CardLines(rows)) == st.(board := st.board + rows)
    decreases |rows|
  {
    if rows == [] {
      assert st.board + rows == st.board;
    } else {
      var init := rows[..|rows| - 1];
      assert st.board + init + [rows[|rows| - 1]] == st.board + rows;
      CardLinesRead(st, init);
      CardLinesLast(rows);
      RunLast(st, CardLines(rows));
      CardLineReads(Run(st, CardLines(init)), rows[|rows| - 1]);
    }
  }

  lemma MarkerLinesLast(rows: seq<MarkerRow>)
    requires rows != []
    ensures MarkerLines(rows)[..|rows| - 1] == MarkerLines(rows[..|rows| - 1])
    ensures MarkerLines(rows)[|rows| - 1] == MarkerLine(rows[|rows| - 1])
  {
  }

  lemma {:induction false} MarkerLinesRead(st: LoadState, rows: seq<MarkerRow>)
    requires st.section == MarkersSection && !st.failed
    requires forall i :: 0 <= i < |rows| ==> MarkerRowSafe(rows[i])
    ensures Run(st, MarkerLines(rows)) == st.(markers := st.markers + rows)
    decreases |rows|
  {
    if rows == [] {
      assert st.markers + rows == st.markers;
    } else {
      var init := rows[..|rows| - 1];
      assert st.markers + init + [rows[|rows| - 1]] == st.markers + rows;
      MarkerLinesRead(st, init);
      MarkerLinesLast(rows);
      RunLast(st, MarkerLines(rows));
      MarkerLineReads(Run(st, MarkerLines(init)), rows[|rows| - 1]);
    }
  }

  /**
   * Saving a board and loading the file gives back the two image names, the
   * deck ids in order, every board card's id, position and flags, and every
   * marker, provided the snapshot avoids what the format cannot carry.
   */
  lemma SaveLoadRoundTrip(s: Snapshot)
    requires SaveSafe(s)
    ensures Load(SaveLines(s)) == LoadState(MarkersSection, [s.reverse, s.playmat], s.deck, s.board, s.markers, false)
  {
    var c := [ResourceHeader, s.reverse, s.playmat, DeckHeader] + s.deck + [BoardHeader] + CardLines(s.board);
    var d := c + [MarkersHeader];
    assert [] + s.markers == s.markers;
    assert SaveLines(s) == d + MarkerLines(s.markers);
    var st4 := LoadState(BoardSection, [s.reverse, s.playmat], s.deck, s.board, [], false);
    UpToMarkers(s);
    var st5 := st4.(section := MarkersSection);
    assert Run(Start, d) == st5 by {
      RunAppend(Start, c, [MarkersHeader]);
      HeaderSwitch(st4, MarkersHeader);
    }
    RunAppend(Start, d, MarkerLines(s.markers));
    MarkerLinesRead(st5, s.markers);
  }

  /** Everything the file holds before the `[Board]` header. */
  lemma UpToBoard(s: Snapshot)
    requires SaveSafe(s)
    ensures Run(Start, [ResourceHeader, s.reverse, s.playmat, DeckHeader] + s.deck)
            == LoadState(DeckSection, [s.reverse, s.playmat], s.deck, [], [], false)
  {
    var head := [ResourceHeader, s.reverse, s.playmat, DeckHeader];
    var st1 := LoadState(DeckSection, [s.reverse, s.playmat], [], [], [], false);
    assert [] + s.deck == s.deck;
    HeadRead(s.reverse, s.playmat);
    RunAppend(Start, head, s.deck);
    DeckLinesRead(st1, s.deck);
  }

  /** Everything the file holds before the `[Markers]` header. */
  lemma UpToMarkers(s: Snapshot)
    requires SaveSafe(s)
    ensures Run(Start, [ResourceHeader, s.reverse, s.playmat, DeckHeader] + s.deck + [BoardHeader] + CardLines(s.board))
            == LoadState(BoardSection, [s.reverse, s.playmat], s.deck, s.board, [], false)
  {
    var a := [ResourceHeader, s.reverse, s.playmat, DeckHeader] + s.deck;
    var b := a + [BoardHeader];
    var st2 := LoadState(DeckSection, [s.reverse, s.playmat], s.deck, [], [], false);
    var st3 := st2.(section := BoardSection);
    assert Run(Start, b) == st3 by {
      UpToBoard(s);
      RunAppend(Start, a, [BoardHeader]);
      HeaderSwitch(st2, BoardHeader);
    }
    RunAppend(Start, b, CardLines(s.board));
    CardLinesRead(st3, s.board);
    assert [] + s.board == s.board;
  }

  lemma HeaderStripped(h: string)
    requires IsHeader(h)
    ensures Strip(h) == h && h != []
  {
    assert IsStripped(h);
  }

  /** The `[Resource]` block and the `[Deck]` header. */
  lemma HeadRead(reverse: string, playmat: string)
    requires PlainLine(reverse) && PlainLine(playmat)
    ensures Run(Start, [ResourceHeader, reverse, playmat, DeckHeader])
            == LoadState(DeckSection, [reverse, playmat], [], [], [], false)
  {
    var s1 := LoadState(ResourceSection, [], [], [], [], false);
    var s2 := s1.(resources := [reverse]);
    var s3 := s1.(resources := [reverse, playmat]);
    var a1 := [ResourceHeader];
    var a2 := a1 + [reverse];
    var a3 := a2 + [playmat];
    assert [] + a1 == a1;
    assert [] + [reverse] == [reverse];
    assert [reverse] + [playmat] == [reverse, playmat];
    assert a3 + [DeckHeader] == [ResourceHeader, reverse, playmat, DeckHeader];
    RunSnoc(Start, [], ResourceHeader);
    ResourceHeaderStep(Start, ResourceHeader);
    RunSnoc(Start, a1, reverse);
    ResourceLineReads(s1, reverse);
    RunSnoc(Start, a2, playmat);
    ResourceLineReads(s2, playmat);
    RunSnoc(Start, a3, DeckHeader);
    HeaderStep(s3, DeckHeader);
  }

  /** A line adds at most one entry, to at most one of the deck, the board rows and the marker rows, and removes none. */
  lemma StepAddsAtMostOne(st: LoadState, raw: string)
    ensures var next := Step(st, raw);
            next.deck == st.deck
            || (next.deck == st.deck + [Strip(raw)] && next.board == st.board && next.markers == st.markers)
    ensures var next := Step(st, raw);
            next.board == st.board
            || (|next.board| == |st.board| + 1 && next.board == st.board + [next.board[|st.board|]]
                && next.deck == st.deck && next.markers == st.markers)
    ensures var next := Step(st, raw);
            next.markers == st.markers
            || (|next.markers| == |st.markers| + 1 && next.markers == st.markers + [next.markers[|st.markers|]]
                && next.deck == st.deck && next.board == st.board)
  {
    StepLineAddsAtMostOne(st, Strip(raw));
  }

  lemma StepLineAddsAtMostOne(st: LoadState, line: string)
    ensures var next := StepLine(st, line);
            next.deck == st.deck
            || (next.deck == st.deck + [line] && next.board == st.board && next.markers == st.markers)
    ensures var next := StepLine(st, line);
            next.board == st.board
            || (|next.board| == |st.board| + 1 && next.board == st.board + [next.board[|st.board|]]
                && next.deck == st.deck && next.markers == st.markers)
    ensures var next := StepLine(st, line);
            next.markers == st.markers
            || (|next.markers| == |st.markers| + 1 && next.markers == st.markers + [next.markers[|st.markers|]]
                && next.deck == st.deck && next.board == st.board)
  {
    if !st.failed && line != "" && !IsHeader(line) {
      match st.section {
        case NoSection =>
        case ResourceSection =>
        case DeckSection =>
        case BoardSection =>
          RowAddsAtMostOne(st, CardRowOf(line));
        case MarkersSection =>
          MarkerRowAddsAtMostOne(st, MarkerRowOf(line));
      }
    }
  }

  lemma RowAddsAtMostOne(st: LoadState, p: RowParse<CardRow>)
    ensures var next := WithCardRow(st, p);
            next.deck == st.deck && next.markers == st.markers
            && (next.board == st.board || (|next.board| == |st.board| + 1 && next.board == st.board + [next.board[|st.board|]]))
  {
  }

  lemma MarkerRowAddsAtMostOne(st: LoadState, p: RowParse<MarkerRow>)
    ensures var next := WithMarkerRow(st, p);
            next.deck == st.deck && next.board == st.board
            && (next.markers == st.markers || (|next.markers| == |st.markers| + 1 && next.markers == st.markers + [next.markers[|st.markers|]]))
  {
  }

  /** The loop may stop at the end of the file or at the first failure: the rest of the file changes nothing. */
  lemma RunStopped(lines: seq<string>, i: nat)
    requires i <= |lines|
    requires i == |lines| || Run(Start, lines[..i]).failed
    ensures Load(lines) == Run(Start, lines[..i])
  {
    var done, rest := lines[..i], lines[i..];
    assert done + rest == lines;
    RunAppend(Start, done, rest);
    if i < |lines| {
      FailureStops(Run(Start, done), rest);
    } else {
      assert rest == [];
    }
  }

  /** The loop on one more line. */
  lemma RunSnoc(st: LoadState, lines: seq<string>, x: string)
    ensures Run(st, lines + [x]) == Step(Run(st, lines), x)
  {
    assert (lines + [x])[..|lines|] == lines;
  }

  lemma ResourceHeaderStep(st: LoadState, h: string)
    requires !st.failed && h == ResourceHeader
    ensures Step(st, h) == st.(section := ResourceSection, resources := [])
  {
    HeaderStripped(h);
  }

  lemma ResourceLineReads(st: LoadState, x: string)
    requires st.section == ResourceSection && !st.failed && PlainLine(x)
    ensures Step(st, x) == st.(resources := st.resources + [x])
  {
  }

  /** The other three headers only switch the section. */
  lemma HeaderStep(st: LoadState, h: string)
    requires !st.failed && (h == DeckHeader || h == BoardHeader || h == MarkersHeader)
    ensures Step(st, h) == st.(section := if h == DeckHeader then DeckSection else if h == BoardHeader then BoardSection else MarkersSection)
  {
    HeaderStripped(h);
  }

  /** The `[Board]` and `[Markers]` headers only switch the section. */
  lemma HeaderSwitch(st: LoadState, h: string)
    requires !st.failed && (h == BoardHeader || h == MarkersHeader)
    ensures Run(st, [h]) == st.(section := if h == BoardHeader then BoardSection else MarkersSection)
  {
    assert [h][..0] == [];
    HeaderStripped(h);
  }
}
