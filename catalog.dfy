/**
 * The deck editor's card catalog (`CardList.csv`, lines `id,name[,ex]`)
 * and the list-box texts built from it, `"<id> - <name>"`, from which the
 * editor reads the id back by cutting at the first `" - "`.
 */
module Catalog {
  import opened Common
  import opened Text
  import opened Sorting

  /** One `card_definitions` entry: the name and whether `ex` is `"1"`. */
  datatype CardDef = CardDef(name: string, isEx: bool)

  // ---------------------------------------------------------------------
  // Display strings
  // ---------------------------------------------------------------------

  const DisplaySep := " - "

  /** `f"{card_id} - {card_name}"`. */
  function Display(id: string, name: string): string {
    id + DisplaySep + name
  }

  /** `text.split(" - ", 1)[0]`: the id a list-box text stands for. */
  function IdOfDisplay(text: string): (id: string)
    ensures |id| <= |text| && id == text[..|id|]
  {
    BeforeFirst(text, DisplaySep)
  }

  /**
   * The id comes back from its display text exactly when `" - "` does not
   * occur in `id + " -"`: besides ids holding `" - "`, an id ending in
   * `" -"` is cut short as well.
   */
  lemma DisplayRecoversId(id: string, name: string)
    ensures IdOfDisplay(Display(id, name)) == id <==> !Contains(id + " -", DisplaySep)
  {
    var s := Display(id, name);
    var r := IdOfDisplay(s);
    assert OccursAt(s, DisplaySep, |id|) by {
      assert s[|id|..|id| + 3] == DisplaySep;
    }
    if !Contains(id + " -", DisplaySep) {
      forall i | 0 <= i < |id| ensures !OccursAt(s, DisplaySep, i) {
        if OccursAt(s, DisplaySep, i) {
          assert s[i..i + 3] == (id + " -")[i..i + 3];
          assert OccursAt(id + " -", DisplaySep, i);
          assert false;
        }
      }
      assert |r| == |id|;
      assert r == s[..|id|] == id;
    }
    if r == id && Contains(id + " -", DisplaySep) {
      var i: nat :| OccursAt(id + " -", DisplaySep, i);
      assert s[i..i + 3] == (id + " -")[i..i + 3];
      assert OccursAt(s, DisplaySep, i);
      assert false;
    }
  }

  /** An id such as `"a -"` does not come back from its display text. */
  lemma DisplayLosesTrailingDash()
    ensures IdOfDisplay(Display("a -", "x")) != "a -"
  {
    assert OccursAt("a -" + " -", DisplaySep, 1) by {
      assert ("a -" + " -")[1..4] == DisplaySep;
    }
    DisplayRecoversId("a -", "x");
  }

  /**
   * The search filter: `filter_text in display_text.lower()` with the
   * filter already lower-cased (ASCII case only).
   */
  predicate MatchesFilter(text: string, filter: string) {
    ContainsFrom(Lower(text), Lower(filter))
  }

  /** The texts the filtered list box shows, in catalog order. */
  function Filtered(display: seq<(string, string)>, filter: string): (r: seq<string>)
    ensures |r| <= |display|
  {
    if display == [] then []
    else
      var rest := Filtered(display[..|display| - 1], filter);
      var t := display[|display| - 1].0;
      if MatchesFilter(t, filter) then rest + [t] else rest
  }

  /** The list box shows every text that matches the filter and nothing else. */
  lemma {:induction false} FilteredExactly(display: seq<(string, string)>, filter: string)
    ensures forall i :: 0 <= i < |Filtered(display, filter)| ==> MatchesFilter(Filtered(display, filter)[i], filter)
    ensures forall i :: 0 <= i < |display| && MatchesFilter(display[i].0, filter) ==> display[i].0 in Filtered(display, filter)
    decreases |display|
  {
    if display != [] {
      var init := display[..|display| - 1];
      FilteredExactly(init, filter);
      assert forall i :: 0 <= i < |init| ==> display[i] == init[i];
    }
  }

  /** An empty filter shows every text. */
  lemma {:induction false} EmptyFilterShowsAll(display: seq<(string, string)>)
    ensures |Filtered(display, "")| == |display|
    decreases |display|
  {
    if display != [] {
      EmptyFilterShowsAll(display[..|display| - 1]);
      assert OccursAt(Lower(display[|display| - 1].0), Lower(""), 0);
      ContainsFromMeansContains(Lower(display[|display| - 1].0), Lower(""));
    }
  }

  /** One more catalog row either adds its text at the end of the filtered list or nothing. */
  lemma FilteredStep(display: seq<(string, string)>, i: nat, filter: string)
    requires i < |display|
    ensures Filtered(display[..i + 1], filter)
            == Filtered(display[..i], filter) + (if MatchesFilter(display[i].0, filter) then [display[i].0] else [])
  {
    assert display[..i + 1][..i] == display[..i];
  }

  /** The last position of x in s, or -1 when x does not occur. */
  function LastIndex(s: seq<string>, x: string): (k: int)
    ensures -1 <= k < |s|
    ensures k >= 0 ==> s[k] == x && x !in s[k + 1..]
    ensures k == -1 ==> x !in s
  {
    if s == [] then -1
    else if s[|s| - 1] == x then |s| - 1
    else
      var k := LastIndex(s[..|s| - 1], x);
      assert s == s[..|s| - 1] + [s[|s| - 1]];
      assert k >= 0 ==> s[k + 1..] == s[..|s| - 1][k + 1..] + [s[|s| - 1]];
      k
  }

  lemma LastIndexAppend(s: seq<string>, t: string, x: string)
    ensures LastIndex(s + [t], x) == if t == x then |s| else LastIndex(s, x)
  {
    assert (s + [t])[..|s|] == s;
  }

  /** The row to reselect in the shown texts: the last one equal to a non-empty previous selection. */
  function RestoreRow(shown: seq<string>, previous: Option<string>): int {
    if previous.Some? && previous.value != [] then LastIndex(shown, previous.value) else -1
  }

  /**
   * `_filter_available_cards`: the texts shown and the row to reselect,
   * the last row holding the previously selected text, or -1.
   */
  method FilterAvailable(display: seq<(string, string)>, filter: string, previous: Option<string>)
    returns (shown: seq<string>, restore: int)
    ensures shown == Filtered(display, filter)
    ensures -1 <= restore < |shown|
    ensures restore >= 0 ==> previous.Some? && previous.value != [] && shown[restore] == previous.value
                             && previous.value !in shown[restore + 1..]
    ensures restore == -1 ==> previous.None? || previous.value == [] || previous.value !in shown
  {
    shown := [];
    restore := -1;
    var i := 0;
    while i < |display|
      invariant 0 <= i <= |display|
      invariant shown == Filtered(display[..i], filter)
      invariant restore == RestoreRow(shown, previous)
    {
      var text := display[i].0;
      FilteredStep(display, i, filter);
      if MatchesFilter(text, filter) {
        if previous.Some? && previous.value != [] {
          LastIndexAppend(shown, text, previous.value);
          if text == previous.value {
            restore := |shown|;
          }
        }
        shown := shown + [text];
      }
      i := i + 1;
    }
    assert display[..i] == display;
  }

  // ---------------------------------------------------------------------
  // The catalog file
  // ---------------------------------------------------------------------

  /**
   * One line of `CardList.csv`: blank lines and `#` comments are ignored,
   * a line with fewer than two comma fields is skipped; otherwise the id
   * and the name are stripped and `ex` is `"1"` exactly when the stripped
   * third field is `"1"`.
   */
  function CatalogEntry(raw: string): Option<(string, CardDef)> {
    var line := Strip(raw);
    if line == "" || line[0] == '#' then None
    else EntryOfFields(SplitAtMost2(line, ','))
  }

  /** The fields of `line.split(",", 2)`: fewer than two is a malformed line. */
  function EntryOfFields(parts: seq<string>): Option<(string, CardDef)> {
    if |parts| < 2 then None
    else Some((Strip(parts[0]), CardDef(Strip(parts[1]), |parts| > 2 && Strip(parts[2]) == "1")))
  }

  /** A catalog line as one would write it. */
  function CatalogLine(id: string, name: string, isEx: bool): string {
    id + "," + name + (if isEx then ",1" else "")
  }

  /** A well-formed catalog line reads back as its id, name and EX flag. */
  lemma CatalogLineReads(id: string, name: string, isEx: bool)
    requires id != [] && IsStripped(id) && id[0] != '#' && ',' !in id
    requires IsStripped(name) && ',' !in name
    ensures CatalogEntry(CatalogLine(id, name, isEx)) == Some((id, CardDef(name, isEx)))
  {
    var line := CatalogLine(id, name, isEx);
    var parts := if isEx then [id, name, "1"] else [id, name];
    CatalogLineSplits(id, name, isEx);
    CatalogLineStripped(id, name, isEx);
    CatalogEntryOf(line, parts);
    WrittenFieldsRead(id, name, isEx);
  }

  lemma WrittenFieldsRead(id: string, name: string, isEx: bool)
    requires IsStripped(id) && IsStripped(name)
    ensures EntryOfFields(if isEx then [id, name, "1"] else [id, name]) == Some((id, CardDef(name, isEx)))
  {
    if isEx {
      ExFieldsRead(id, name);
    } else {
      assert EntryOfFields([id, name]) == Some((id, CardDef(name, false)));
    }
  }

  lemma ExFieldsRead(id: string, name: string)
    requires IsStripped(id) && IsStripped(name)
    ensures EntryOfFields([id, name, "1"]) == Some((id, CardDef(name, true)))
  {
    OneIsStripped();
  }

  lemma OneIsStripped()
    ensures Strip("1") == "1"
  {
    assert IsStripped("1");
  }

  lemma CatalogLineSplits(id: string, name: string, isEx: bool)
    requires ',' !in id && ',' !in name
    ensures SplitAtMost2(CatalogLine(id, name, isEx), ',') == if isEx then [id, name, "1"] else [id, name]
  {
    var parts := if isEx then [id, name, "1"] else [id, name];
    assert Join(parts, ',') == CatalogLine(id, name, isEx) by {
      assert [id, name][..1] == [id];
      assert Join([id, name], ',') == id + [','] + name;
      if isEx {
        assert parts[..2] == [id, name];
        assert CatalogLine(id, name, isEx) == id + [','] + name + [','] + "1";
      } else {
        assert CatalogLine(id, name, isEx) == id + [','] + name;
      }
    }
    assert forall i :: 0 <= i < |parts| ==> ',' !in parts[i];
    SplitJoin(parts, ',');
  }

  lemma CatalogLineStripped(id: string, name: string, isEx: bool)
    requires id != [] && IsStripped(id) && IsStripped(name)
    ensures Strip(CatalogLine(id, name, isEx)) == CatalogLine(id, name, isEx)
  {
    var line := CatalogLine(id, name, isEx);
    assert line[0] == id[0];
    if isEx {
      assert line[|line| - 1] == '1';
    } else if name != [] {
      assert line[|line| - 1] == name[|name| - 1];
    } else {
      assert line[|line| - 1] == ',';
    }
    assert IsStripped(line);
  }

  /** How a stripped, non-comment line with at least two fields reads. */
  lemma CatalogEntryOf(line: string, parts: seq<string>)
    requires Strip(line) == line && line != [] && line[0] != '#'
    requires SplitAtMost2(line, ',') == parts
    ensures CatalogEntry(line) == EntryOfFields(parts)
  {
  }

  /** The entry of every line, in file order. */
  function Entries(lines: seq<string>): (es: seq<Option<(string, CardDef)>>)
    ensures |es| == |lines|
    ensures forall i :: 0 <= i < |lines| ==> es[i] == CatalogEntry(lines[i])
  {
    seq(|lines|, i requires 0 <= i < |lines| => CatalogEntry(lines[i]))
  }

  /** `card_definitions` after the given entries: later entries overwrite earlier ones. */
  function Defs(es: seq<Option<(string, CardDef)>>): map<string, CardDef> {
    if es == [] then map[]
    else
      var defs := Defs(es[..|es| - 1]);
      match es[|es| - 1]
      case None => defs
      case Some((id, d)) => defs[id := d]
  }

  /** `available_cards_display` before sorting: one `(text, id)` per entry, duplicates included. */
  function Rows(es: seq<Option<(string, CardDef)>>): seq<(string, string)> {
    if es == [] then []
    else
      var rows := Rows(es[..|es| - 1]);
      match es[|es| - 1]
      case None => rows
      case Some((id, d)) => rows + [(Display(id, d.name), id)]
  }

  /** Entry i defines id, and no later entry does. */
  ghost predicate LastDefinition(es: seq<Option<(string, CardDef)>>, i: int, id: string) {
    0 <= i < |es| && es[i].Some? && es[i].value.0 == id
    && forall j :: i < j < |es| ==> es[j].None? || es[j].value.0 != id
  }

  /** For a duplicate id the last line wins. */
  lemma {:induction false} LastDuplicateWins(es: seq<Option<(string, CardDef)>>, i: int, id: string)
    requires LastDefinition(es, i, id)
    ensures id in Defs(es) && Defs(es)[id] == es[i].value.1
    decreases |es|
  {
    var init := es[..|es| - 1];
    if i < |es| - 1 {
      assert LastDefinition(init, i, id) by {
        forall j | i < j < |init| ensures init[j].None? || init[j].value.0 != id {
          assert init[j] == es[j];
        }
      }
      LastDuplicateWins(init, i, id);
      assert es[|es| - 1].None? || es[|es| - 1].value.0 != id;
    }
  }

  /** Entry i defines id. */
  ghost predicate Defines(es: seq<Option<(string, CardDef)>>, i: int, id: string) {
    0 <= i < |es| && es[i].Some? && es[i].value.0 == id
  }

  /** An id is defined exactly when some line defines it. */
  lemma {:induction false} DefinedIffSomeLine(es: seq<Option<(string, CardDef)>>, id: string)
    ensures id in Defs(es) <==> exists i :: Defines(es, i, id)
    decreases |es|
  {
    if es != [] {
      var init := es[..|es| - 1];
      DefinedIffSomeLine(init, id);
      if exists i :: Defines(init, i, id) {
        var i :| Defines(init, i, id);
        assert Defines(es, i, id);
      }
      if es[|es| - 1].Some? && es[|es| - 1].value.0 == id {
        assert Defines(es, |es| - 1, id);
      }
      if exists i :: Defines(es, i, id) {
        var i :| Defines(es, i, id);
        if i < |init| {
          assert Defines(init, i, id);
        }
      }
    }
  }

  /** Every row of the display list names a defined id, and every defined id has a row. */
  lemma {:induction false} RowsMatchDefs(es: seq<Option<(string, CardDef)>>)
    ensures forall k :: 0 <= k < |Rows(es)| ==> Rows(es)[k].1 in Defs(es)
    ensures forall id :: id in Defs(es) ==> exists k :: 0 <= k < |Rows(es)| && Rows(es)[k].1 == id
    decreases |es|
  {
    if es != [] {
      var init := es[..|es| - 1];
      RowsMatchDefs(init);
      var rows := Rows(init);
      var defs := Defs(init);
      match es[|es| - 1]
      case None =>
        assert Rows(es) == rows && Defs(es) == defs;
        assert forall k :: 0 <= k < |Rows(es)| ==> Rows(es)[k].1 in Defs(es);
      case Some((id, d)) =>
        var rows' := rows + [(Display(id, d.name), id)];
        var defs' := defs[id := d];
        assert Rows(es) == rows' && Defs(es) == defs';
        assert rows'[|rows|].1 == id;
        forall k | 0 <= k < |rows'| ensures rows'[k].1 in defs' {
          if k < |rows| {
            assert rows'[k] == rows[k];
          }
        }
        forall x | x in defs' ensures exists k :: 0 <= k < |rows'| && rows'[k].1 == x {
          if x != id {
            var k :| 0 <= k < |rows| && rows[k].1 == x;
            assert rows'[k].1 == x;
          }
        }
    }
  }

  /** `available_cards_display.sort()`: Python's tuple order, text first and then id. */
  function SortedRows(rows: seq<(string, string)>): (r: seq<(string, string)>)
    ensures SortedBy(r, PairLe) && multiset(r) == multiset(rows)
  {
    PairLeIsLinear();
    Sort(rows, PairLe)
  }
}
