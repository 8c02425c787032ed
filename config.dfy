/**
 * The simulator's two small text checks: reading the opponent window's
 * refresh rate from `config.cfg`, and the validator of the life-points
 * entry field.
 */
module Config {
  import opened Common
  import opened Text

  /** Refresh period, in milliseconds, used when the file does not give a usable one. */
  const DefaultRefreshRate := 120
  const RefreshKey := "opponent_refresh_rate"

  predicate StartsWith(s: string, prefix: string) {
    |prefix| <= |s| && s[..|prefix|] == prefix
  }

  /**
   * `load_config`: None is a missing file. The first line that starts with
   * the key decides: it must split on '=' into exactly two parts whose
   * second is an integer, otherwise the default is used.
   */
  function RefreshRate(file: Option<seq<string>>): (rate: int)
    ensures file.None? ==> rate == DefaultRefreshRate
    ensures file.Some? && (forall i :: 0 <= i < |file.value| ==> !StartsWith(file.value[i], RefreshKey)) ==> rate == DefaultRefreshRate
  {
    match file
    case None => DefaultRefreshRate
    case Some(lines) => FirstSetting(lines)
  }

  function FirstSetting(lines: seq<string>): (rate: int)
    ensures (forall i :: 0 <= i < |lines| ==> !StartsWith(lines[i], RefreshKey)) ==> rate == DefaultRefreshRate
  {
    if lines == [] then DefaultRefreshRate
    else if StartsWith(lines[0], RefreshKey) then
      var parts := Split(Strip(lines[0]), '=');
      if |parts| != 2 then DefaultRefreshRate
      else match ParseInt(parts[1])
        case Some(v) => v
        case None => DefaultRefreshRate
    else FirstSetting(lines[1..])
  }

  /** A file whose first setting line is `opponent_refresh_rate=<n>` yields n, whatever follows. */
  lemma {:induction false} RefreshRateReadsSetting(before: seq<string>, n: int, after: seq<string>)
    requires forall i :: 0 <= i < |before| ==> !StartsWith(before[i], RefreshKey)
    ensures RefreshRate(Some(before + [SettingLine(n)] + after)) == n
    decreases |before|
  {
    var lines := before + [SettingLine(n)] + after;
    if before == [] {
      assert lines == [SettingLine(n)] + after;
      SettingLineRead(n, after);
    } else {
      assert lines[1..] == before[1..] + [SettingLine(n)] + after;
      RefreshRateReadsSetting(before[1..], n, after);
    }
  }

  /** The line `opponent_refresh_rate=<n>`. */
  function SettingLine(n: int): (line: string)
    ensures StartsWith(line, RefreshKey)
  {
    var line := RefreshKey + "=" + IntToString(n);
    assert line[..|RefreshKey|] == RefreshKey;
    line
  }

  lemma SettingLineRead(n: int, after: seq<string>)
    ensures FirstSetting([SettingLine(n)] + after) == n
  {
    var lines := [SettingLine(n)] + after;
    assert lines[0] == SettingLine(n);
    SettingLineParts(n);
    IntToStringParses(n);
  }

  lemma SettingLineParts(n: int)
    ensures Split(Strip(SettingLine(n)), '=') == [RefreshKey, IntToString(n)]
  {
    var line := SettingLine(n);
    var digits := IntToString(n);
    assert line == RefreshKey + "=" + digits;
    assert IsStripped(line) by {
      assert line[0] == 'o';
      assert line[|line| - 1] == digits[|digits| - 1];
    }
    assert '=' !in RefreshKey;
    assert '=' !in digits;
    SplitJoin([RefreshKey, digits], '=');
    assert Join([RefreshKey, digits], '=') == line;
  }

  /**
   * `_validate_life_input`: the empty text (a cleared field) or an integer
   * from 0 to 999999.
   */
  predicate LifeInputValid(s: string) {
    s == "" || (ParseInt(s).Some? && 0 <= ParseInt(s).value <= 999999)
  }

  /** Exactly the life totals 0..999999 pass when typed as plain numbers. */
  lemma LifeInputAcceptsRange(n: int)
    ensures LifeInputValid(IntToString(n)) <==> 0 <= n <= 999999
  {
    IntToStringParses(n);
  }
}
