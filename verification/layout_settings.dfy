/**
 * Layout settings: three settings start at their defaults and each is
 * overwritten only when its own element is present under Layout/Settings.
 */
module LayoutSettings {
  import opened Wrappers
  import opened Ascii
  import opened IntParse
  import opened SplitFile

  datatype Setting = SplitsPerPage | AutoUpdatePB | GoldSplit

  function ElementName(s: Setting): string {
    match s
    case SplitsPerPage => "SplitsPerPage"
    case AutoUpdatePB => "AutoUpdatePB"
    case GoldSplit => "GoldSplit"
  }

  const DefaultSplitsPerPage: int := 5
  const DefaultAutoUpdatePB: bool := true
  const DefaultGoldSplit: bool := true

  datatype Settings = Settings(splitsPerPage: int, autoUpdatePB: bool, goldSplit: bool)

  /** The text of a setting's element, None when Layout, Settings or the element itself is absent. */
  function SettingText(layout: Option<LayoutElement>, s: Setting): Option<string> {
    if layout.None? || layout.value.settings.None? then None
    else
      var settings := layout.value.settings.value;
      match s
      case SplitsPerPage => settings.splitsPerPage
      case AutoUpdatePB => settings.autoUpdatePB
      case GoldSplit => settings.goldSplit
  }

  /** An integer setting: its default when absent, else its text parsed by `int`. */
  function IntSetting(layout: Option<LayoutElement>, s: Setting, default: int): Result<int, ConvError> {
    match SettingText(layout, s)
    case None => Success(default)
    case Some(text) =>
      match ParseInt(text)
      case Some(n) => Success(n)
      case None => Failure(InvalidInteger(ElementName(s), text))
  }

  /**
   * A boolean setting: its default when absent, else whether its text
   * lower-cased is "true"; an element without text cannot be lower-cased.
   */
  function FlagSetting(layout: Option<LayoutElement>, s: Setting, default: bool): Result<bool, ConvError> {
    match SettingText(layout, s)
    case None => Success(default)
    case Some(text) =>
      if text == "" then Failure(MissingText(ElementName(s)))
      else Success(Lower(text) == "true")
  }

  /**
   * The three settings, each defaulted on its own, read in document order.
   * Reading fails exactly when SplitsPerPage is present and not an integer,
   * or a flag element is present without text. Otherwise each setting
   * depends on its own element only: the default when that element is
   * absent, else its parsed text; a flag is true exactly when it is absent or
   * its text lower-cased is "true".
   */
  function SettingsOf(layout: Option<LayoutElement>): (r: Result<Settings, ConvError>)
    ensures r.Failure? <==>
      || (SettingText(layout, SplitsPerPage).Some? && ParseInt(SettingText(layout, SplitsPerPage).value).None?)
      || SettingText(layout, AutoUpdatePB) == Some("")
      || SettingText(layout, GoldSplit) == Some("")
    ensures r.Success? ==>
      && (SettingText(layout, SplitsPerPage).None? ==> r.value.splitsPerPage == DefaultSplitsPerPage)
      && (SettingText(layout, SplitsPerPage).Some? ==>
            ParseInt(SettingText(layout, SplitsPerPage).value) == Some(r.value.splitsPerPage))
      && (r.value.autoUpdatePB <==>
            SettingText(layout, AutoUpdatePB).None? || Lower(SettingText(layout, AutoUpdatePB).value) == "true")
      && (r.value.goldSplit <==>
            SettingText(layout, GoldSplit).None? || Lower(SettingText(layout, GoldSplit).value) == "true")
  {
    var n :- IntSetting(layout, SplitsPerPage, DefaultSplitsPerPage);
    var a :- FlagSetting(layout, AutoUpdatePB, DefaultAutoUpdatePB);
    var g :- FlagSetting(layout, GoldSplit, DefaultGoldSplit);
    Success(Settings(n, a, g))
  }

  /** The converter's default-then-overwrite reading of the settings. */
  method ReadSettings(layout: Option<LayoutElement>) returns (r: Result<Settings, ConvError>)
    ensures r == SettingsOf(layout)
  {
    var splitsPerPage := DefaultSplitsPerPage;
    var autoUpdatePB := DefaultAutoUpdatePB;
    var goldSplit := DefaultGoldSplit;
    if layout.Some? {
      var settings := layout.value.settings;
      if settings.Some? {
        var element := settings.value.splitsPerPage;
        if element.Some? {
          var n := ParseInt(element.value);
          if n.None? {
            return Failure(InvalidInteger("SplitsPerPage", element.value));
          }
          splitsPerPage := n.value;
        }
        element := settings.value.autoUpdatePB;
        if element.Some? {
          if element.value == "" {
            return Failure(MissingText("AutoUpdatePB"));
          }
          autoUpdatePB := Lower(element.value) == "true";
        }
        element := settings.value.goldSplit;
        if element.Some? {
          if element.value == "" {
            return Failure(MissingText("GoldSplit"));
          }
          goldSplit := Lower(element.value) == "true";
        }
      }
    }
    return Success(Settings(splitsPerPage, autoUpdatePB, goldSplit));
  }

  /** Without a Layout, or without its Settings, every setting has its default: 5, true, true. */
  lemma SettingsDefaults(layout: Option<LayoutElement>)
    requires layout.None? || layout.value.settings.None?
    ensures SettingsOf(layout) == Success(Settings(5, true, true))
  {
  }

  /** The flag comparison ignores case and nothing else. */
  lemma FlagExamples(upper: string, mixed: string, yes: string, padded: string)
    requires upper == "TRUE" && mixed == "True" && yes == "yes" && padded == " true"
    ensures Lower(upper) == "true" && Lower(mixed) == "true"
    ensures Lower(yes) != "true" && Lower(padded) != "true"
  {
    assert Lower(yes)[0] == 'y';
    assert Lower(padded)[0] == ' ';
  }
}
