/**
 * The block settings sheet: it loads a block's size and Pomodoro settings
 * into an editing form, lets the user adjust them, and saves them back as a
 * new block record. Durations are stored as "MM:SS" strings but edited as
 * minutes only.
 */
module BlockSettingsSheet {
  import opened Basics

  /**
   * A block's Pomodoro settings. The fields are optional because the sheet
   * loads them from `blockData.settings || {}`, whose fields may be missing.
   */
  datatype BlockSettings = BlockSettings(
    focusTime: Option<string>,
    shortBreak: Option<string>,
    longBreak: Option<string>,
    hasLongBreak: Option<bool>,
    cycles: Option<int>)

  /** A block record; `extra` stands for the fields under its string index signature. */
  datatype BlockData = BlockData(
    id: string,
    title: string,
    kind: string,
    width: Option<int>,
    height: Option<int>,
    settings: Option<BlockSettings>,
    extra: map<string, string>)

  /** The sheet's editing state. */
  datatype Form = Form(
    width: int,
    height: int,
    focusTime: string,
    shortBreak: string,
    longBreak: string,
    hasLongBreak: bool,
    cycles: int)

  /** The form before anything is loaded. */
  function InitialForm(): (f: Form)
    ensures f.width == 1 && f.height == 1
    ensures f.focusTime == "25" && f.shortBreak == "5" && f.longBreak == "15"
    ensures f.hasLongBreak && f.cycles == 4
  {
    Form(1, 1, "25", "5", "15", true, 4)
  }

  /**
   * `getMinutes`: "" for an empty string, otherwise everything before the
   * first ':' (the whole string when it has none).
   */
  function GetMinutes(timeString: string): (r: string)
    ensures |r| <= |timeString| && r == timeString[..|r|]
    ensures ':' !in r
    ensures |r| < |timeString| ==> timeString[|r|] == ':'
  {
    if timeString == [] || timeString[0] == ':' then ""
    else [timeString[0]] + GetMinutes(timeString[1..])
  }

  /** Minutes without a ':' come back unchanged from what saving writes. */
  lemma {:induction false} GetMinutesOfSaved(m: string)
    requires ':' !in m
    ensures GetMinutes(m + ":00") == m
  {
    if m != [] {
      assert (m + ":00")[1..] == m[1..] + ":00";
      GetMinutesOfSaved(m[1..]);
    }
  }

  /** `value || fallback` for an optional string: missing and "" are both falsy. */
  function OrString(v: Option<string>, fallback: string): (r: string)
    ensures v.Some? && v.value != "" ==> r == v.value
    ensures v.None? || v.value == "" ==> r == fallback
  {
    if v.Some? && v.value != "" then v.value else fallback
  }

  /** `value || fallback` for an optional number: missing and 0 are both falsy. */
  function OrNumber(v: Option<int>, fallback: int): (r: int)
    ensures v.Some? && v.value != 0 ==> r == v.value
    ensures v.None? || v.value == 0 ==> r == fallback
  {
    if v.Some? && v.value != 0 then v.value else fallback
  }

  /** The block's settings, or a record with every field missing when it has none. */
  function SettingsOrEmpty(b: BlockData): (r: BlockSettings)
    ensures b.settings.Some? ==> r == b.settings.value
    ensures b.settings.None? ==>
      r.focusTime.None? && r.shortBreak.None? && r.longBreak.None? &&
      r.hasLongBreak.None? && r.cycles.None?
  {
    if b.settings.Some? then b.settings.value else BlockSettings(None, None, None, None, None)
  }

  /**
   * What the load effect puts into the form for a block: width and height
   * default to 1 when missing or 0, the three times to 25, 05 and 15 minutes
   * when missing or empty, `hasLongBreak` to true when missing, `cycles` to 4
   * when missing or 0. The loaded minute strings never contain ':'.
   */
  function LoadedForm(b: BlockData): (f: Form)
    ensures f.width != 0 && f.height != 0 && f.cycles != 0
    ensures b.width.Some? && b.width.value != 0 ==> f.width == b.width.value
    ensures b.width.None? || b.width.value == 0 ==> f.width == 1
    ensures b.height.Some? && b.height.value != 0 ==> f.height == b.height.value
    ensures b.height.None? || b.height.value == 0 ==> f.height == 1
    ensures ':' !in f.focusTime && ':' !in f.shortBreak && ':' !in f.longBreak
    ensures var s := SettingsOrEmpty(b);
      && (s.focusTime.None? || s.focusTime.value == "" ==> f.focusTime == "25")
      && (s.focusTime.Some? && s.focusTime.value != "" ==> f.focusTime == GetMinutes(s.focusTime.value))
      && (s.shortBreak.None? || s.shortBreak.value == "" ==> f.shortBreak == "05")
      && (s.shortBreak.Some? && s.shortBreak.value != "" ==> f.shortBreak == GetMinutes(s.shortBreak.value))
      && (s.longBreak.None? || s.longBreak.value == "" ==> f.longBreak == "15")
      && (s.longBreak.Some? && s.longBreak.value != "" ==> f.longBreak == GetMinutes(s.longBreak.value))
      && (s.hasLongBreak.None? ==> f.hasLongBreak)
      && (s.hasLongBreak.Some? ==> f.hasLongBreak == s.hasLongBreak.value)
      && (s.cycles.None? || s.cycles.value == 0 ==> f.cycles == 4)
      && (s.cycles.Some? && s.cycles.value != 0 ==> f.cycles == s.cycles.value)
  {
    var s := SettingsOrEmpty(b);
    var focus := GetMinutes(OrString(s.focusTime, "25:00"));
    var short := GetMinutes(OrString(s.shortBreak, "05:00"));
    var long := GetMinutes(OrString(s.longBreak, "15:00"));
    assert GetMinutes("25:00") == "25" && GetMinutes("05:00") == "05" && GetMinutes("15:00") == "15" by {
      GetMinutesOfSaved("25");
      GetMinutesOfSaved("05");
      GetMinutesOfSaved("15");
    }
    Form(
      OrNumber(b.width, 1),
      OrNumber(b.height, 1),
      focus, short, long,
      if s.hasLongBreak.Some? then s.hasLongBreak.value else true,
      OrNumber(s.cycles, 4))
  }

  /**
   * The record `handleSave` passes on: nothing without a block; otherwise the
   * block with only `width`, `height` and `settings` replaced, each minute
   * string followed by ":00".
   */
  function SavedBlock(blockData: Option<BlockData>, f: Form): (r: Option<BlockData>)
    ensures r.Some? <==> blockData.Some?
    ensures r.Some? ==>
      var b, u := blockData.value, r.value;
      && u.id == b.id && u.title == b.title && u.kind == b.kind && u.extra == b.extra
      && u.width == Some(f.width) && u.height == Some(f.height)
      && u.settings == Some(BlockSettings(
           Some(f.focusTime + ":00"), Some(f.shortBreak + ":00"), Some(f.longBreak + ":00"),
           Some(f.hasLongBreak), Some(f.cycles)))
  {
    match blockData
    case None => None
    case Some(b) =>
      Some(b.(
        width := Some(f.width),
        height := Some(f.height),
        settings := Some(BlockSettings(
          Some(f.focusTime + ":00"), Some(f.shortBreak + ":00"), Some(f.longBreak + ":00"),
          Some(f.hasLongBreak), Some(f.cycles)))))
  }

  /** A form the sheet can save and load back unchanged. */
  predicate Reloadable(f: Form)
  {
    && f.width != 0 && f.height != 0 && f.cycles != 0
    && ':' !in f.focusTime && ':' !in f.shortBreak && ':' !in f.longBreak
  }

  /** Saving a form and loading the saved block gives the same form back. */
  lemma SaveThenLoad(b: BlockData, f: Form)
    requires Reloadable(f)
    ensures LoadedForm(SavedBlock(Some(b), f).value) == f
  {
    GetMinutesOfSaved(f.focusTime);
    GetMinutesOfSaved(f.shortBreak);
    GetMinutesOfSaved(f.longBreak);
  }

  /** Every loaded form reloads unchanged after a save. */
  lemma LoadedIsReloadable(b: BlockData)
    ensures Reloadable(LoadedForm(b))
  {
  }

  /** The counter's minus button: one less, but never below `min`. */
  function Decremented(value: int, min: int): (r: int)
    ensures r >= min && r >= value - 1
    ensures r == min || r == value - 1
  {
    if value - 1 < min then min else value - 1
  }

  /** The counter's plus button: exactly one more, without an upper bound. */
  function Incremented(value: int): (r: int)
    ensures r - 1 == value
  {
    value + 1
  }

  /** The four size options the sheet offers, as (width, height). */
  function LayoutOptions(): (r: seq<(int, int)>)
    ensures |r| == 4
    ensures forall i :: 0 <= i < |r| ==> 1 <= r[i].0 <= 2 && 1 <= r[i].1 <= 2
    ensures forall i, j :: 0 <= i < j < |r| ==> r[i] != r[j]
  {
    [(1, 1), (2, 1), (1, 2), (2, 2)]
  }

  /** An option is highlighted when the form's width and height both match it. */
  predicate IsSelected(f: Form, targetW: int, targetH: int)
    ensures IsSelected(f, targetW, targetH) ==> f.width == targetW && f.height == targetH
    ensures f.width == targetW && f.height == targetH ==> IsSelected(f, targetW, targetH)
  {
    f.width == targetW && f.height == targetH
  }

  /** Choosing option `k` highlights it and no other option. */
  lemma ChoosingSelectsExactlyOne(f: Form, k: int, j: int)
    requires 0 <= k < |LayoutOptions()| && 0 <= j < |LayoutOptions()|
    ensures var chosen := f.(width := LayoutOptions()[k].0, height := LayoutOptions()[k].1);
      IsSelected(chosen, LayoutOptions()[j].0, LayoutOptions()[j].1) <==> j == k
  {
    if j != k {
      var (a, b) := if j < k then (j, k) else (k, j);
      assert LayoutOptions()[a] != LayoutOptions()[b];
    }
  }

  /** The sheet's state, updated in place by its handlers. */
  class Sheet {
    var width: int
    var height: int
    var focusTime: string
    var shortBreak: string
    var longBreak: string
    var hasLongBreak: bool
    var cycles: int

    function Fields(): (r: Form)
      reads this
    {
      Form(width, height, focusTime, shortBreak, longBreak, hasLongBreak, cycles)
    }

    constructor ()
      ensures Fields() == InitialForm()
    {
      width, height := 1, 1;
      focusTime, shortBreak, longBreak := "25", "5", "15";
      hasLongBreak, cycles := true, 4;
    }

    /** The load effect: runs only while the sheet is visible and has a block. */
    method Load(visible: bool, blockData: Option<BlockData>)
      modifies this
      ensures visible && blockData.Some? ==> Fields() == LoadedForm(blockData.value)
      ensures !(visible && blockData.Some?) ==> Fields() == old(Fields())
    {
      if visible && blockData.Some? {
        var b := blockData.value;
        width := OrNumber(b.width, 1);
        height := OrNumber(b.height, 1);
        var s := SettingsOrEmpty(b);
        focusTime := GetMinutes(OrString(s.focusTime, "25:00"));
        shortBreak := GetMinutes(OrString(s.shortBreak, "05:00"));
        longBreak := GetMinutes(OrString(s.longBreak, "15:00"));
        hasLongBreak := if s.hasLongBreak.Some? then s.hasLongBreak.value else true;
        cycles := OrNumber(s.cycles, 4);
      }
    }

    /** `handleSave`: the record handed to `onSave`, or nothing when there is no block. */
    method Save(blockData: Option<BlockData>) returns (updated: Option<BlockData>)
      ensures updated == SavedBlock(blockData, Fields())
    {
      if blockData.None? {
        return None;
      }
      var b := blockData.value;
      updated := Some(b.(
        width := Some(width),
        height := Some(height),
        settings := Some(BlockSettings(
          Some(focusTime + ":00"), Some(shortBreak + ":00"), Some(longBreak + ":00"),
          Some(hasLongBreak), Some(cycles)))));
    }

    /** The cycles counter's minus button (its minimum is 1). */
    method DecrementCycles()
      modifies this
      ensures Fields() == old(Fields()).(cycles := Decremented(old(cycles), 1))
    {
      cycles := if cycles - 1 < 1 then 1 else cycles - 1;
    }

    /** The cycles counter's plus button. */
    method IncrementCycles()
      modifies this
      ensures Fields() == old(Fields()).(cycles := Incremented(old(cycles)))
    {
      cycles := cycles + 1;
    }

    /** Pressing a size option sets both width and height to its target. */
    method ChooseLayout(targetW: int, targetH: int)
      modifies this
      ensures Fields() == old(Fields()).(width := targetW, height := targetH)
      ensures IsSelected(Fields(), targetW, targetH)
    {
      width := targetW;
      height := targetH;
    }
  }
}
