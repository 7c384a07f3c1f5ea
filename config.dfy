/**
 * doneyet-config.cc: colour and boolean option values read from a
 * two-level `section -> key -> value` string map, with defaults loaded first.
 */
module Config {
  import opened Wrappers

  type Section = map<string, string>
  type ConfigMap = map<string, Section>

  /** The ncurses colour numbers COLOR_BLACK .. COLOR_WHITE. */
  const Black: int := 0
  const Red: int := 1
  const Green: int := 2
  const Yellow: int := 3
  const Blue: int := 4
  const Magenta: int := 5
  const Cyan: int := 6
  const White: int := 7
  /** The terminal's own colour. */
  const Terminal: int := -1
  /** kColorError: the string names no colour. */
  const ColorError: int := -2

  /** The colour names, indexed by colour number. */
  const ColorNames: seq<string> := ["black", "red", "green", "yellow", "blue", "magenta", "cyan", "white"]

  const GeneralSection: string := "GENERAL"
  const ForegroundKey: string := "foreground_color"
  const BackgroundKey: string := "background_color"
  const HeaderTextKey: string := "header_text_color"

  const TasksSection: string := "TASKS"
  const UnstartedKey: string := "unstarted_color"
  const InProgressKey: string := "in_progress_color"
  const PausedKey: string := "paused_color"
  const FinishedKey: string := "finished_color"
  const PromptOnDeleteKey: string := "prompt_on_delete"

  const MenusSection: string := "MENUS"
  const BarForegroundKey: string := "bar_foreground_color"
  const BarBackgroundKey: string := "bar_background_color"
  const UnselectedForegroundKey: string := "unselected_item_foreground_color"
  const UnselectedBackgroundKey: string := "unselected_item_background_color"
  const SelectedForegroundKey: string := "selected_item_foreground_color"
  const SelectedBackgroundKey: string := "selected_item_background_color"

  // ---------------------------------------------------------------- maps

  /** `map[key]` on a section: the stored value, or the empty string for a missing key. */
  function Lookup(m: Section, key: string): string
  {
    if key in m then m[key] else ""
  }

  /** `config_[section]`: the section, or an empty one. */
  function SectionOf(c: ConfigMap, name: string): Section
  {
    if name in c then c[name] else map[]
  }

  // ---------------------------------------------------------------- colours

  /** std::tolower in the "C" locale: only 'A'..'Z' change. */
  function LowerChar(ch: char): (r: char)
    ensures 'A' <= ch <= 'Z' ==> 'a' <= r <= 'z' && r as int == ch as int + 32
    ensures !('A' <= ch <= 'Z') ==> r == ch
  {
    if 'A' <= ch <= 'Z' then (ch as int + 32) as char else ch
  }

  function Lower(s: string): (r: string)
    ensures |r| == |s| && forall i :: 0 <= i < |s| ==> r[i] == LowerChar(s[i])
  {
    seq(|s|, i requires 0 <= i < |s| => LowerChar(s[i]))
  }

  /** The colour an already lower-cased name denotes, or ColorError. */
  function ColorOfName(name: string): int
  {
    if name == "black" then Black
    else if name == "red" then Red
    else if name == "green" then Green
    else if name == "yellow" then Yellow
    else if name == "blue" then Blue
    else if name == "magenta" then Magenta
    else if name == "cyan" then Cyan
    else if name == "white" then White
    else if name == "terminal" then Terminal
    else ColorError
  }

  /** What ColorForString returns for s. */
  function ColorFor(s: string): int
  {
    ColorOfName(Lower(s))
  }

  /** ColorForString: lower-case a copy of s, then look the name up. */
  method ColorForString(s: string) returns (c: int)
    ensures c == ColorFor(s)
  {
    var t := s;
    for i := 0 to |t|
      invariant |t| == |s|
      invariant forall j :: 0 <= j < i ==> t[j] == LowerChar(s[j])
      invariant forall j :: i <= j < |s| ==> t[j] == s[j]
    {
      t := t[i := LowerChar(t[i])];
    }
    assert t == Lower(s);
    c := ColorOfName(t);
  }

  /** A string with no upper-case letter is its own lower-case form. */
  lemma LowerOfLower(s: string)
    requires forall i :: 0 <= i < |s| ==> !('A' <= s[i] <= 'Z')
    ensures Lower(s) == s
  {
  }

  /** Lower-casing twice is lower-casing once. */
  lemma LowerIdempotent(s: string)
    ensures Lower(Lower(s)) == Lower(s)
  {
  }

  /** The lookup ignores case: strings equal up to case get the same colour. */
  lemma ColorForIgnoresCase(s: string, t: string)
    requires Lower(s) == Lower(t)
    ensures ColorFor(s) == ColorFor(t)
    ensures ColorFor(s) == ColorFor(Lower(s))
  {
    LowerIdempotent(s);
  }

  /** Each of the eight names denotes its colour number, and "terminal" the terminal colour. */
  lemma NamedColors(i: nat)
    requires i < |ColorNames|
    ensures ColorFor(ColorNames[i]) == i
    ensures ColorFor("terminal") == Terminal
  {
    LowerOfLower(ColorNames[i]);
    LowerOfLower("terminal");
  }

  /**
   * Every other string is an error: a result other than ColorError comes
   * only from one of the nine names, matched without regard to case.
   */
  lemma ColorForCases(s: string)
    ensures var c := ColorFor(s);
      && -2 <= c <= 7
      && (0 <= c ==> Lower(s) == ColorNames[c])
      && (c == Terminal <==> Lower(s) == "terminal")
      && (c == ColorError <==> Lower(s) !in ColorNames && Lower(s) != "terminal")
  {
  }

  lemma UpperCaseName()
    ensures ColorFor("Blue") == Blue && ColorFor("TERMINAL") == Terminal && ColorFor("bleu") == ColorError
  {
    assert Lower("Blue") == "blue";
    assert Lower("TERMINAL") == "terminal";
    LowerOfLower("bleu");
  }

  // ---------------------------------------------------------------- ParseColor / ParseBool

  /**
   * ParseColor: the colour of the value under key (the value is empty when
   * the key is missing) is always the result, and the option is accepted
   * exactly when it is not ColorError.
   */
  method ParseColor(section: Section, key: string) returns (ok: bool, c: int)
    ensures c == ColorFor(Lookup(section, key))
    ensures ok <==> c != ColorError
  {
    c := ColorForString(Lookup(section, key));
    ok := c != ColorError;
  }

  /** The boolean a value spells, if it spells one ("true"/"yes", "false"/"no", case-sensitive). */
  function BoolFor(param: string): (r: Option<bool>)
    ensures r.Some? <==> param in {"true", "yes", "false", "no"}
    ensures r.Some? ==> (r.value <==> param in {"true", "yes"})
  {
    if param == "true" || param == "yes" then Some(true)
    else if param == "false" || param == "no" then Some(false)
    else None
  }

  /** ParseBool: on a value that spells no boolean, reject and leave `value` as it was. */
  method ParseBool(section: Section, key: string, value: bool) returns (ok: bool, v: bool)
    ensures ok <==> Lookup(section, key) in {"true", "yes", "false", "no"}
    ensures ok ==> (v <==> Lookup(section, key) in {"true", "yes"})
    ensures !ok ==> v == value
  {
    var param := Lookup(section, key);
    if param == "true" || param == "yes" {
      ok, v := true, true;
    } else if param == "false" || param == "no" {
      ok, v := true, false;
    } else {
      ok, v := false, value;
    }
  }

  // ---------------------------------------------------------------- the && chains

  /** ParseColor accepts the value under key. */
  predicate ValidColor(section: Section, key: string)
  {
    ColorFor(Lookup(section, key)) != ColorError
  }

  /** The first n general options (foreground, background, header text) are accepted. */
  predicate GeneralAccepted(g: Section, n: nat)
  {
    && (n > 0 ==> ValidColor(g, ForegroundKey))
    && (n > 1 ==> ValidColor(g, BackgroundKey))
    && (n > 2 ==> ValidColor(g, HeaderTextKey))
  }

  /** The first n task options (four colours, then prompt_on_delete) are accepted. */
  predicate TaskAccepted(t: Section, n: nat)
  {
    && (n > 0 ==> ValidColor(t, UnstartedKey))
    && (n > 1 ==> ValidColor(t, InProgressKey))
    && (n > 2 ==> ValidColor(t, PausedKey))
    && (n > 3 ==> ValidColor(t, FinishedKey))
    && (n > 4 ==> BoolFor(Lookup(t, PromptOnDeleteKey)).Some?)
  }

  /** The first n menu colour options are accepted. */
  predicate MenuAccepted(m: Section, n: nat)
  {
    && (n > 0 ==> ValidColor(m, BarForegroundKey))
    && (n > 1 ==> ValidColor(m, BarBackgroundKey))
    && (n > 2 ==> ValidColor(m, UnselectedForegroundKey))
    && (n > 3 ==> ValidColor(m, UnselectedBackgroundKey))
    && (n > 4 ==> ValidColor(m, SelectedForegroundKey))
    && (n > 5 ==> ValidColor(m, SelectedBackgroundKey))
  }

  /**
   * The value of a colour variable after an `&&` chain of ParseColor calls:
   * its own ParseColor runs, and stores, only when every option before it
   * was accepted.
   */
  function ChainedColor(earlierAccepted: bool, section: Section, key: string, previous: int): int
  {
    if earlierAccepted then ColorFor(Lookup(section, key)) else previous
  }

  predicate GeneralValid(c: ConfigMap)
  {
    GeneralAccepted(SectionOf(c, GeneralSection), 3)
  }

  predicate TasksValid(c: ConfigMap)
  {
    TaskAccepted(SectionOf(c, TasksSection), 5)
  }

  predicate MenusValid(c: ConfigMap)
  {
    MenuAccepted(SectionOf(c, MenusSection), 6)
  }

  // ---------------------------------------------------------------- defaults and overlay

  /** The defaults Parse loads, in the order it stores them: section, option, value. */
  const Defaults: seq<(string, string, string)> :=
    [(GeneralSection, ForegroundKey, "white"), (GeneralSection, BackgroundKey, "black"),
     (GeneralSection, HeaderTextKey, "red"),
     (TasksSection, UnstartedKey, "terminal"), (TasksSection, InProgressKey, "green"),
     (TasksSection, PausedKey, "red"), (TasksSection, FinishedKey, "blue"),
     (TasksSection, PromptOnDeleteKey, "true"),
     (MenusSection, BarForegroundKey, "black"), (MenusSection, BarBackgroundKey, "yellow"),
     (MenusSection, UnselectedForegroundKey, "yellow"), (MenusSection, UnselectedBackgroundKey, "blue"),
     (MenusSection, SelectedForegroundKey, "yellow"), (MenusSection, SelectedBackgroundKey, "blue")]

  /** `config_[section][option] = value` for each entry in turn. */
  function Stored(c: ConfigMap, entries: seq<(string, string, string)>): ConfigMap
  {
    if entries == [] then c
    else
      var c' := Stored(c, entries[..|entries| - 1]);
      var e := entries[|entries| - 1];
      c'[e.0 := SectionOf(c', e.0)[e.1 := e.2]]
  }

  /** The value the last entry for (section, option) stores, if there is one. */
  function LastStored(entries: seq<(string, string, string)>, section: string, key: string): Option<string>
  {
    if entries == [] then None
    else if entries[|entries| - 1].0 == section && entries[|entries| - 1].1 == key then Some(entries[|entries| - 1].2)
    else LastStored(entries[..|entries| - 1], section, key)
  }

  /** After storing the entries, an option holds what its last entry stored, or what it held before. */
  lemma {:induction false} StoredLookup(c: ConfigMap, entries: seq<(string, string, string)>, section: string, key: string)
    ensures Lookup(SectionOf(Stored(c, entries), section), key)
            == match LastStored(entries, section, key)
               case Some(v) => v
               case None => Lookup(SectionOf(c, section), key)
  {
    if entries != [] {
      StoredLookup(c, entries[..|entries| - 1], section, key);
    }
  }

  /** No two entries set the same option of the same section. */
  predicate DistinctOptions(entries: seq<(string, string, string)>)
  {
    forall i, j :: 0 <= i < j < |entries| ==> entries[i].0 != entries[j].0 || entries[i].1 != entries[j].1
  }

  /** Among entries that set distinct options, each entry is the last one for its option. */
  lemma {:induction false} LastStoredOfDistinct(entries: seq<(string, string, string)>, i: nat)
    requires DistinctOptions(entries) && i < |entries|
    ensures LastStored(entries, entries[i].0, entries[i].1) == Some(entries[i].2)
  {
    var n := |entries| - 1;
    if i < n {
      assert entries[..n][i] == entries[i];
      LastStoredOfDistinct(entries[..n], i);
    }
  }

  /** The defaults set fourteen different options. */
  lemma DefaultsDistinct()
    ensures DistinctOptions(Defaults)
  {
  }

  /** Each default is what its option holds once the defaults are loaded. */
  lemma DefaultStored(c: ConfigMap, i: nat, section: string, key: string, value: string)
    requires i < |Defaults| && Defaults[i] == (section, key, value)
    ensures Lookup(SectionOf(WithDefaults(c), section), key) == value
  {
    DefaultsDistinct();
    LastStoredOfDistinct(Defaults, i);
    StoredLookup(c, Defaults, section, key);
  }

  /** The defaults Parse stores, over whatever the sections already hold. */
  function WithDefaults(c: ConfigMap): ConfigMap
  {
    Stored(c, Defaults)
  }

  /**
   * The options ParseConfig read from the file, laid over the current map
   * (file entries win; nothing is removed).
   */
  function Overlaid(c: ConfigMap, file: ConfigMap): ConfigMap
  {
    map s | s in c.Keys + file.Keys :: SectionOf(c, s) + SectionOf(file, s)
  }

  /** Overlaying adds the file's sections, and each option the file sets takes the file's value. */
  lemma OverlaidLookup(c: ConfigMap, file: ConfigMap, s: string, k: string)
    ensures Overlaid(c, file).Keys == c.Keys + file.Keys
    ensures Lookup(SectionOf(Overlaid(c, file), s), k)
            == if k in SectionOf(file, s) then SectionOf(file, s)[k] else Lookup(SectionOf(c, s), k)
  {
  }

  /** The colour names the defaults use, and what they denote. */
  lemma DefaultNames()
    ensures ColorFor("white") == White && ColorFor("black") == Black && ColorFor("red") == Red
    ensures ColorFor("green") == Green && ColorFor("blue") == Blue && ColorFor("yellow") == Yellow
    ensures ColorFor("terminal") == Terminal
  {
    NamedColors(7);
    NamedColors(0);
    NamedColors(1);
    NamedColors(2);
    NamedColors(4);
    NamedColors(3);
  }

  /** The default general colours: white on black, red headers. */
  lemma DefaultGeneralColors(c: ConfigMap)
    ensures var g := SectionOf(WithDefaults(c), GeneralSection);
      && ColorFor(Lookup(g, ForegroundKey)) == White
      && ColorFor(Lookup(g, BackgroundKey)) == Black
      && ColorFor(Lookup(g, HeaderTextKey)) == Red
  {
    DefaultStored(c, 0, GeneralSection, ForegroundKey, "white");
    DefaultStored(c, 1, GeneralSection, BackgroundKey, "black");
    DefaultStored(c, 2, GeneralSection, HeaderTextKey, "red");
    DefaultNames();
  }

  /** The default task colours, and prompting before a delete. */
  lemma DefaultTaskOptions(c: ConfigMap)
    ensures var t := SectionOf(WithDefaults(c), TasksSection);
      && ColorFor(Lookup(t, UnstartedKey)) == Terminal
      && ColorFor(Lookup(t, InProgressKey)) == Green
      && ColorFor(Lookup(t, PausedKey)) == Red
      && ColorFor(Lookup(t, FinishedKey)) == Blue
      && BoolFor(Lookup(t, PromptOnDeleteKey)) == Some(true)
  {
    DefaultTaskColors(c);
    DefaultStored(c, 7, TasksSection, PromptOnDeleteKey, "true");
  }

  /** The four default task colours: terminal, green, red and blue. */
  lemma DefaultTaskColors(c: ConfigMap)
    ensures var t := SectionOf(WithDefaults(c), TasksSection);
      && ColorFor(Lookup(t, UnstartedKey)) == Terminal
      && ColorFor(Lookup(t, InProgressKey)) == Green
      && ColorFor(Lookup(t, PausedKey)) == Red
      && ColorFor(Lookup(t, FinishedKey)) == Blue
  {
    DefaultStored(c, 3, TasksSection, UnstartedKey, "terminal");
    DefaultStored(c, 4, TasksSection, InProgressKey, "green");
    DefaultStored(c, 5, TasksSection, PausedKey, "red");
    DefaultStored(c, 6, TasksSection, FinishedKey, "blue");
    DefaultNames();
  }

  /** The default menu colours. */
  lemma DefaultMenuColors(c: ConfigMap)
    ensures var m := SectionOf(WithDefaults(c), MenusSection);
      && ColorFor(Lookup(m, BarForegroundKey)) == Black
      && ColorFor(Lookup(m, BarBackgroundKey)) == Yellow
      && ColorFor(Lookup(m, UnselectedForegroundKey)) == Yellow
      && ColorFor(Lookup(m, UnselectedBackgroundKey)) == Blue
      && ColorFor(Lookup(m, SelectedForegroundKey)) == Yellow
      && ColorFor(Lookup(m, SelectedBackgroundKey)) == Blue
  {
    DefaultStored(c, 8, MenusSection, BarForegroundKey, "black");
    DefaultStored(c, 9, MenusSection, BarBackgroundKey, "yellow");
    DefaultStored(c, 10, MenusSection, UnselectedForegroundKey, "yellow");
    DefaultStored(c, 11, MenusSection, UnselectedBackgroundKey, "blue");
    DefaultStored(c, 12, MenusSection, SelectedForegroundKey, "yellow");
    DefaultStored(c, 13, MenusSection, SelectedBackgroundKey, "blue");
    DefaultNames();
  }

  /** Every default is accepted, so the three option groups pass on the defaults alone. */
  lemma DefaultsValid(c: ConfigMap)
    ensures GeneralValid(WithDefaults(c)) && TasksValid(WithDefaults(c)) && MenusValid(WithDefaults(c))
  {
    DefaultGeneralColors(c);
    DefaultTaskOptions(c);
    DefaultMenuColors(c);
  }

  /** An option the file does not set keeps the default loaded before it. */
  lemma UnsetOptionKeepsDefault(c: ConfigMap, file: ConfigMap, s: string, k: string)
    requires k !in SectionOf(file, s)
    ensures Lookup(SectionOf(Overlaid(WithDefaults(c), file), s), k) == Lookup(SectionOf(WithDefaults(c), s), k)
  {
    OverlaidLookup(WithDefaults(c), file, s, k);
  }

  // ---------------------------------------------------------------- DoneyetConfig

  class DoneyetConfig {
    /** config_: section name -> option name -> value. */
    var config: ConfigMap

    var foregroundColor: int
    var backgroundColor: int
    var headerTextColor: int

    var unstartedTaskColor: int
    var inProgressTaskColor: int
    var pausedTaskColor: int
    var finishedTaskColor: int
    var promptOnDeleteTask: bool

    var menubarForegroundColor: int
    var menubarBackgroundColor: int
    var unselectedMenuForegroundColor: int
    var unselectedMenuBackgroundColor: int
    var selectedMenuForegroundColor: int
    var selectedMenuBackgroundColor: int

    constructor ()
      ensures config == map[]
    {
      config := map[];
    }

    function GeneralColors(): seq<int>
      reads this
    {
      [foregroundColor, backgroundColor, headerTextColor]
    }

    function TaskColors(): seq<int>
      reads this
    {
      [unstartedTaskColor, inProgressTaskColor, pausedTaskColor, finishedTaskColor]
    }

    function MenuColors(): seq<int>
      reads this
    {
      [menubarForegroundColor, menubarBackgroundColor, unselectedMenuForegroundColor,
       unselectedMenuBackgroundColor, selectedMenuForegroundColor, selectedMenuBackgroundColor]
    }

    /** The general colour fields hold the colours their options name in `config`. */
    ghost predicate GeneralApplied()
      reads this
    {
      var g := SectionOf(config, GeneralSection);
      && foregroundColor == ColorFor(Lookup(g, ForegroundKey))
      && backgroundColor == ColorFor(Lookup(g, BackgroundKey))
      && headerTextColor == ColorFor(Lookup(g, HeaderTextKey))
    }

    /** The task colour fields, and prompt_on_delete, hold what their options name in `config`. */
    ghost predicate TasksApplied()
      reads this
    {
      var t := SectionOf(config, TasksSection);
      && unstartedTaskColor == ColorFor(Lookup(t, UnstartedKey))
      && inProgressTaskColor == ColorFor(Lookup(t, InProgressKey))
      && pausedTaskColor == ColorFor(Lookup(t, PausedKey))
      && finishedTaskColor == ColorFor(Lookup(t, FinishedKey))
      && BoolFor(Lookup(t, PromptOnDeleteKey)) == Some(promptOnDeleteTask)
    }

    /** The menu colour fields hold the colours their options name in `config`. */
    ghost predicate MenusApplied()
      reads this
    {
      var m := SectionOf(config, MenusSection);
      && menubarForegroundColor == ColorFor(Lookup(m, BarForegroundKey))
      && menubarBackgroundColor == ColorFor(Lookup(m, BarBackgroundKey))
      && unselectedMenuForegroundColor == ColorFor(Lookup(m, UnselectedForegroundKey))
      && unselectedMenuBackgroundColor == ColorFor(Lookup(m, UnselectedBackgroundKey))
      && selectedMenuForegroundColor == ColorFor(Lookup(m, SelectedForegroundKey))
      && selectedMenuBackgroundColor == ColorFor(Lookup(m, SelectedBackgroundKey))
    }

    /**
     * ParseGeneralOptions: true exactly when all three colours are accepted;
     * each variable is assigned only if every option before it was accepted.
     */
    method ParseGeneralOptions() returns (ok: bool)
      modifies this`foregroundColor, this`backgroundColor, this`headerTextColor
      ensures var g := SectionOf(config, GeneralSection);
        && (ok <==> GeneralValid(config))
        && foregroundColor == ChainedColor(true, g, ForegroundKey, old(foregroundColor))
        && backgroundColor == ChainedColor(GeneralAccepted(g, 1), g, BackgroundKey, old(backgroundColor))
        && headerTextColor == ChainedColor(GeneralAccepted(g, 2), g, HeaderTextKey, old(headerTextColor))
      ensures ok ==> GeneralApplied()
    {
      var general := SectionOf(config, GeneralSection);
      var c;
      ok, c := ParseColor(general, ForegroundKey);
      foregroundColor := c;
      if ok {
        ok, c := ParseColor(general, BackgroundKey);
        backgroundColor := c;
        if ok {
          ok, c := ParseColor(general, HeaderTextKey);
          headerTextColor := c;
        }
      }
    }

    /**
     * ParseTaskOptions: four colours, then prompt_on_delete, which is parsed
     * only if all four were accepted.
     */
    method ParseTaskOptions() returns (ok: bool)
      modifies this`unstartedTaskColor, this`inProgressTaskColor, this`pausedTaskColor,
               this`finishedTaskColor, this`promptOnDeleteTask
      ensures var t := SectionOf(config, TasksSection);
        && (ok <==> TasksValid(config))
        && unstartedTaskColor == ChainedColor(true, t, UnstartedKey, old(unstartedTaskColor))
        && inProgressTaskColor == ChainedColor(TaskAccepted(t, 1), t, InProgressKey, old(inProgressTaskColor))
        && pausedTaskColor == ChainedColor(TaskAccepted(t, 2), t, PausedKey, old(pausedTaskColor))
        && finishedTaskColor == ChainedColor(TaskAccepted(t, 3), t, FinishedKey, old(finishedTaskColor))
        && promptOnDeleteTask == if ok then BoolFor(Lookup(t, PromptOnDeleteKey)).value else old(promptOnDeleteTask)
      ensures ok ==> TasksApplied()
    {
      var task := SectionOf(config, TasksSection);
      var c;
      ok, c := ParseColor(task, UnstartedKey);
      unstartedTaskColor := c;
      if ok {
        ok, c := ParseColor(task, InProgressKey);
        inProgressTaskColor := c;
        if ok {
          ok, c := ParseColor(task, PausedKey);
          pausedTaskColor := c;
          if ok {
            ok, c := ParseColor(task, FinishedKey);
            finishedTaskColor := c;
            if ok {
              ok, promptOnDeleteTask := ParseBool(task, PromptOnDeleteKey, promptOnDeleteTask);
            }
          }
        }
      }
    }

    /** ParseMenuOptions: six colours with the same short-circuit. */
    method ParseMenuOptions() returns (ok: bool)
      modifies this`menubarForegroundColor, this`menubarBackgroundColor,
               this`unselectedMenuForegroundColor, this`unselectedMenuBackgroundColor,
               this`selectedMenuForegroundColor, this`selectedMenuBackgroundColor
      ensures var m := SectionOf(config, MenusSection);
        && (ok <==> MenusValid(config))
        && menubarForegroundColor == ChainedColor(true, m, BarForegroundKey, old(menubarForegroundColor))
        && menubarBackgroundColor
           == ChainedColor(MenuAccepted(m, 1), m, BarBackgroundKey, old(menubarBackgroundColor))
        && unselectedMenuForegroundColor
           == ChainedColor(MenuAccepted(m, 2), m, UnselectedForegroundKey, old(unselectedMenuForegroundColor))
        && unselectedMenuBackgroundColor
           == ChainedColor(MenuAccepted(m, 3), m, UnselectedBackgroundKey, old(unselectedMenuBackgroundColor))
        && selectedMenuForegroundColor
           == ChainedColor(MenuAccepted(m, 4), m, SelectedForegroundKey, old(selectedMenuForegroundColor))
        && selectedMenuBackgroundColor
           == ChainedColor(MenuAccepted(m, 5), m, SelectedBackgroundKey, old(selectedMenuBackgroundColor))
      ensures ok ==> MenusApplied()
    {
      var menu := SectionOf(config, MenusSection);
      var c;
      ok, c := ParseColor(menu, BarForegroundKey);
      menubarForegroundColor := c;
      if ok {
        ok, c := ParseColor(menu, BarBackgroundKey);
        menubarBackgroundColor := c;
        if ok {
          ok, c := ParseColor(menu, UnselectedForegroundKey);
          unselectedMenuForegroundColor := c;
          if ok {
            ok, c := ParseColor(menu, UnselectedBackgroundKey);
            unselectedMenuBackgroundColor := c;
            if ok {
              ok, c := ParseColor(menu, SelectedForegroundKey);
              selectedMenuForegroundColor := c;
              if ok {
                ok, c := ParseColor(menu, SelectedBackgroundKey);
                selectedMenuBackgroundColor := c;
              }
            }
          }
        }
      }
    }

    /** The tail `ParseTaskOptions() && ParseMenuOptions()` of the chain in Parse. */
    method ParseTaskAndMenuOptions() returns (ok: bool)
      modifies this`unstartedTaskColor, this`inProgressTaskColor, this`pausedTaskColor,
               this`finishedTaskColor, this`promptOnDeleteTask,
               this`menubarForegroundColor, this`menubarBackgroundColor,
               this`unselectedMenuForegroundColor, this`unselectedMenuBackgroundColor,
               this`selectedMenuForegroundColor, this`selectedMenuBackgroundColor
      ensures ok <==> TasksValid(config) && MenusValid(config)
      ensures ok ==> TasksApplied() && MenusApplied()
      ensures !TasksValid(config) ==> MenuColors() == old(MenuColors())
    {
      ok := ParseTaskOptions();
      if ok {
        ok := ParseMenuOptions();
      }
    }

    /** `ParseGeneralOptions() && ParseTaskOptions() && ParseMenuOptions()`. */
    method ParseOptions() returns (ok: bool)
      modifies this`foregroundColor, this`backgroundColor, this`headerTextColor,
               this`unstartedTaskColor, this`inProgressTaskColor, this`pausedTaskColor,
               this`finishedTaskColor, this`promptOnDeleteTask,
               this`menubarForegroundColor, this`menubarBackgroundColor,
               this`unselectedMenuForegroundColor, this`unselectedMenuBackgroundColor,
               this`selectedMenuForegroundColor, this`selectedMenuBackgroundColor
      ensures ok <==> GeneralValid(config) && TasksValid(config) && MenusValid(config)
      ensures ok ==> GeneralApplied() && TasksApplied() && MenusApplied()
      ensures !GeneralValid(config) ==>
                TaskColors() == old(TaskColors()) && promptOnDeleteTask == old(promptOnDeleteTask)
                && MenuColors() == old(MenuColors())
      ensures !TasksValid(config) ==> MenuColors() == old(MenuColors())
    {
      ok := ParseGeneralOptions();
      if ok {
        ok := ParseTaskAndMenuOptions();
      }
    }

    /** Parse's first step: store each default over the current map. */
    method LoadDefaults()
      modifies this`config
      ensures config == WithDefaults(old(config))
      ensures GeneralValid(config) && TasksValid(config) && MenusValid(config)
    {
      config := WithDefaults(config);
      DefaultsValid(old(config));
    }

    /**
     * Parse: defaults first; then, when there is a config file path, what
     * ParseConfig stored over them (`stored`, all of the file when it parsed,
     * possibly only part of it when it failed) and its verdict `parsed`; then
     * the three option groups.
     */
    method Parse(configPath: string, stored: ConfigMap, parsed: bool) returns (ok: bool)
      modifies this
      ensures config == if configPath != "" then Overlaid(WithDefaults(old(config)), stored)
                        else WithDefaults(old(config))
      ensures configPath != "" && !parsed ==>
        && !ok
        && GeneralColors() == old(GeneralColors()) && TaskColors() == old(TaskColors())
        && promptOnDeleteTask == old(promptOnDeleteTask) && MenuColors() == old(MenuColors())
      ensures ok <==> (configPath == "" || parsed) && GeneralValid(config) && TasksValid(config) && MenusValid(config)
      ensures ok ==> GeneralApplied() && TasksApplied() && MenusApplied()
      ensures (configPath == "" || parsed) && !GeneralValid(config) ==>
                TaskColors() == old(TaskColors()) && promptOnDeleteTask == old(promptOnDeleteTask)
                && MenuColors() == old(MenuColors())
      ensures (configPath == "" || parsed) && !TasksValid(config) ==> MenuColors() == old(MenuColors())
      ensures configPath == "" ==> ok
    {
      LoadDefaults();
      if configPath != "" {
        config := Overlaid(config, stored);
        if !parsed {
          return false;
        }
      }
      ok := ParseOptions();
    }
  }
}
