/**
 Asset path resolution: which configuration variable holds the design image for
 the selected layout profile, which sub-directory that profile's images live in,
 how a user-typed design name is normalised, and the key table `LoadAllImages`
 builds (CustomKBMOverlay.cpp, lines 120-186).
 */
module Assets {
  import opened Strings
  import opened State

  /** Directory (below the data folder) every overlay image lives in. */
  const Root := "CustomKBMOverlay/"
  const TemplateName := "keyboard_template.png"
  const DefaultDesign := "keyboard_bg.png"
  const OutlinesName := "keyboard_outlines.png"
  const SpriteSuffix := "_pressed.png"
  const CVarPrefix := "kbm_overlay_image_"

  /** The 31 keys the plugin tracks, in the order `LoadAllImages` lists them. */
  const KeyNames: seq<string> := [
    "esc", "1", "2", "3", "4", "5",
    "tab", "q", "w", "e", "r", "t",
    "caps", "a", "s", "d", "f", "g",
    "shift", "z", "x", "c", "v", "b",
    "ctrl", "alt", "space",
    "mouse_left", "mouse_right", "mouse_4", "mouse_5"
  ]

  /** The same 31 names in ascending `std::string` order: the order a `std::map` visits them. */
  const AscendingKeyNames: seq<string> := [
    "1", "2", "3", "4", "5", "a", "alt", "b", "c", "caps", "ctrl",
    "d", "e", "esc", "f", "g", "mouse_4", "mouse_5", "mouse_left", "mouse_right",
    "q", "r", "s", "shift", "space", "t", "tab", "v", "w", "x", "z"
  ]

  /** The layout a profile selects (the settings panel offers "Full", "WASD Only", "Mouse Only"). */
  datatype Profile = FullBoard | WasdOnly | MouseOnly

  /** Profile number 1 is WASD only, 2 is mouse only, and every other value the full board. */
  function ProfileOf(profile: int): Profile {
    if profile == 1 then WasdOnly else if profile == 2 then MouseOnly else FullBoard
  }

  /** The name a profile goes by in configuration names and directory names. */
  function Tag(p: Profile): string {
    match p
    case FullBoard => "full"
    case WasdOnly => "wasd"
    case MouseOnly => "mouse"
  }

  /** `GetImageCVarName`: the configuration variable holding the design image of the profile. */
  function ImageCVarName(profile: int): (name: string)
    ensures name == CVarPrefix + Tag(ProfileOf(profile))
  {
    if profile == 1 then "kbm_overlay_image_wasd"
    else if profile == 2 then "kbm_overlay_image_mouse"
    else "kbm_overlay_image_full"
  }

  /**
   The profile's image sub-directory, chosen by the same comparisons in
   `LoadImageTemplate` and in `LoadOverlayImage`.
   */
  function SubDir(profile: int): (dir: string)
    ensures ProfileOf(profile) == FullBoard ==> dir == ""
    ensures ProfileOf(profile) != FullBoard ==> dir == "layouts/" + Tag(ProfileOf(profile)) + "/"
  {
    if profile == 1 then "layouts/wasd/"
    else if profile == 2 then "layouts/mouse/"
    else ""
  }

  /** The directory the profile's sprites and design image are read from. */
  function ProfileDir(profile: int): string {
    Root + SubDir(profile)
  }

  /** `LoadImageTemplate`: the file a template image of the profile is created from. */
  function TemplatePath(profile: int, filename: string): (path: Path)
    ensures IsPrefix(ProfileDir(profile), path)
    ensures path[|ProfileDir(profile)|..] == filename
  {
    Root + SubDir(profile) + filename
  }

  /** Removes one leading `CustomKBMOverlay/` (17 characters) if the name starts with it. */
  function StripLegacyPrefix(f: string): (r: string)
    ensures IsPrefix(Root, f) ==> Root + r == f
    ensures !IsPrefix(Root, f) ==> r == f
  {
    if IsPrefix(Root, f) then f[17..] else f
  }

  /**
   The file-name part of the design path: the legacy prefix removed once, and the
   old combined template name upgraded to the design layer's name.
   */
  function NormaliseDesignName(f: string): (r: string)
    ensures r != TemplateName
    ensures r == DefaultDesign || r == f || Root + r == f
    ensures r != DefaultDesign && !IsPrefix(Root, f) ==> r == f
  {
    var stripped := StripLegacyPrefix(f);
    if stripped == TemplateName then DefaultDesign else stripped
  }

  /**
   The design file `LoadOverlayImage` falls back to for an empty argument: the
   profile's configuration value, or the default design when that variable is missing.
   */
  function DesignChoice(relativePath: string, profile: int, config: map<string, string>): (f: string)
    ensures relativePath != "" ==> f == relativePath
    ensures relativePath == "" && ImageCVarName(profile) !in config ==> f == DefaultDesign
    ensures relativePath == "" && ImageCVarName(profile) in config ==> f == config[ImageCVarName(profile)]
  {
    if relativePath != "" then relativePath
    else if ImageCVarName(profile) in config then config[ImageCVarName(profile)]
    else DefaultDesign
  }

  /** The path `LoadOverlayImage` loads the design image from (and records as current). */
  function OverlayPath(relativePath: string, profile: int, config: map<string, string>): (path: Path)
    ensures IsPrefix(ProfileDir(profile), path)
    ensures path[|ProfileDir(profile)|..] != TemplateName
    ensures path == TemplatePath(profile, path[|ProfileDir(profile)|..])
  {
    TemplatePath(profile, NormaliseDesignName(DesignChoice(relativePath, profile, config)))
  }

  /** `LoadOverlayImage`: replaces the design and outline images with the profile's files. */
  function LoadOverlayImage(s: Overlay, relativePath: string, profile: int, config: map<string, string>): (r: Overlay)
    ensures r.overlayImage == Some(r.currentOverlayPath)
    ensures r.currentOverlayPath == OverlayPath(relativePath, profile, config)
    ensures IsPrefix(ProfileDir(profile), r.currentOverlayPath)
    ensures r.outlinesImage == Some(TemplatePath(profile, OutlinesName))
    ensures r.(overlayImage := s.overlayImage, outlinesImage := s.outlinesImage, currentOverlayPath := s.currentOverlayPath) == s
  {
    var path := OverlayPath(relativePath, profile, config);
    s.(overlayImage := Some(path), currentOverlayPath := path,
       outlinesImage := Some(TemplatePath(profile, OutlinesName)))
  }

  /** The record `LoadAllImages` stores for a key: its sprite, not pressed, opacity 0. */
  function FreshKey(profile: int, key: string): (k: KeyImages)
    ensures k.pressed.Some? && k.pressed.value == TemplatePath(profile, key + SpriteSuffix)
    ensures k == Unlit.(pressed := k.pressed)
  {
    KeyImages(Some(TemplatePath(profile, key + SpriteSuffix)), false, 0.0)
  }

  /** Stores a fresh record under each of `names`, in order, replacing any earlier record. */
  function InstallKeys(keys: map<string, KeyImages>, names: seq<string>, profile: int): (r: map<string, KeyImages>)
    ensures r.Keys == keys.Keys + (set k | k in names)
    ensures forall k :: k in names ==> r[k] == FreshKey(profile, k)
    ensures forall k :: k in keys && k !in names ==> r[k] == keys[k]
    decreases |names|
  {
    if names == [] then keys
    else InstallKeys(keys[names[0] := FreshKey(profile, names[0])], names[1..], profile)
  }

  /** `LoadAllImages`: (re)loads the record of every tracked key; nothing else changes. */
  function LoadAllImages(s: Overlay, profile: int): (r: Overlay)
    ensures r.keys.Keys == s.keys.Keys + KeyNameSet
    ensures forall k :: k in KeyNameSet ==> r.keys[k] == FreshKey(profile, k)
    ensures forall k :: k in s.keys && k !in KeyNameSet ==> r.keys[k] == s.keys[k]
    ensures r.(keys := s.keys) == s
  {
    LoadKeys(s, KeyNames, profile)
  }

  /** Loads the records of `names` into the table. */
  function LoadKeys(s: Overlay, names: seq<string>, profile: int): (r: Overlay)
    ensures r.keys.Keys == s.keys.Keys + (set k | k in names)
    ensures forall k :: k in names ==> r.keys[k] == FreshKey(profile, k)
    ensures forall k :: k in s.keys && k !in names ==> r.keys[k] == s.keys[k]
    ensures r.(keys := s.keys) == s
  {
    s.(keys := InstallKeys(s.keys, names, profile))
  }

  // ---- the key table ----

  /** The set of tracked key names. */
  const KeyNameSet: set<string> := set k | k in KeyNames

  lemma AscendingKeyNamesFrom0()
    ensures forall i :: 0 < i <= 10 ==> Less(AscendingKeyNames[i - 1], AscendingKeyNames[i])
  {
    assert Less("1", "2");
    assert Less("2", "3");
    assert Less("3", "4");
    assert Less("4", "5");
    assert Less("5", "a");
    assert Less("a", "alt");
    assert Less("alt", "b");
    assert Less("b", "c");
    assert Less("c", "caps");
    assert Less("caps", "ctrl");
  }

  lemma AscendingKeyNamesFrom10()
    ensures forall i :: 10 < i <= 20 ==> Less(AscendingKeyNames[i - 1], AscendingKeyNames[i])
  {
    assert Less("ctrl", "d");
    assert Less("d", "e");
    assert Less("e", "esc");
    assert Less("esc", "f");
    assert Less("f", "g");
    assert Less("g", "mouse_4");
    LessCommonPrefix("mouse_", "4", "5");
    LessCommonPrefix("mouse_", "5", "left");
    LessCommonPrefix("mouse_", "left", "right");
    assert Less("mouse_right", "q");
  }

  lemma AscendingKeyNamesFrom20()
    ensures forall i :: 20 < i <= 30 ==> Less(AscendingKeyNames[i - 1], AscendingKeyNames[i])
  {
    assert Less("q", "r");
    assert Less("r", "s");
    assert Less("s", "shift");
    assert Less("shift", "space");
    assert Less("space", "t");
    assert Less("t", "tab");
    assert Less("tab", "v");
    assert Less("v", "w");
    assert Less("w", "x");
    assert Less("x", "z");
  }

  /** `AscendingKeyNames` is the order in which a `std::map` holding exactly the tracked keys visits them. */
  lemma KeyMapOrder()
    ensures Enumerates(AscendingKeyNames, KeyNameSet)
  {
    AscendingKeyNamesFrom0();
    AscendingKeyNamesFrom10();
    AscendingKeyNamesFrom20();
    assert (set k | k in KeyNames) == (set k | k in AscendingKeyNames);
  }

  /** The 31 listed names are pairwise different. */
  lemma KeyNameCount()
    ensures |KeyNameSet| == |KeyNames| == 31
  {
    KeyMapOrder();
    AscendingIsDistinct(AscendingKeyNames);
    DistinctCardinality(AscendingKeyNames);
    assert (set k | k in KeyNames) == (set k | k in AscendingKeyNames);
  }

  /**
   Loading the key table into a plugin that has none yet (as `onLoad` does) yields
   exactly the 31 tracked keys, each with its `<name>_pressed.png` sprite, unpressed and unlit.
   */
  lemma KeyTableAfterLoad(s: Overlay, profile: int)
    requires s.keys == map[]
    ensures LoadAllImages(s, profile).keys.Keys == KeyNameSet
    ensures |LoadAllImages(s, profile).keys| == 31
    ensures forall k :: k in LoadAllImages(s, profile).keys ==>
      LoadAllImages(s, profile).keys[k] == FreshKey(profile, k)
  {
    KeyTableDomain(s, profile);
    KeyTableSize(LoadAllImages(s, profile).keys);
  }

  lemma KeyTableDomain(s: Overlay, profile: int)
    requires s.keys == map[]
    ensures LoadAllImages(s, profile).keys.Keys == KeyNameSet
  {
  }

  /** Any map keyed by exactly the tracked names has 31 entries. */
  lemma KeyTableSize<V>(t: map<string, V>)
    requires t.Keys == KeyNameSet
    ensures |t| == 31
  {
    KeyNameCount();
    assert |t| == |t.Keys|;
  }

  // ---- design-name normalisation ----

  /** A name carrying the legacy prefix loses exactly that one prefix (or is upgraded). */
  lemma LegacyPrefixStripped(x: string)
    ensures NormaliseDesignName(Root + x) == if x == TemplateName then DefaultDesign else x
  {
    assert (Root + x)[..|Root|] == Root;
    assert (Root + x)[17..] == x;
  }

  /** A doubled legacy prefix keeps one copy: the prefix is removed once, not repeatedly. */
  lemma DoubledPrefixKeepsOne(x: string)
    ensures NormaliseDesignName(Root + Root + x) == Root + x
  {
    assert Root + Root + x == Root + (Root + x);
    LegacyPrefixStripped(Root + x);
    assert (Root + x)[0] != TemplateName[0];
  }

  /** A name without the legacy prefix, other than the old template name, is used unchanged. */
  lemma PlainNameKept(f: string)
    requires !IsPrefix(Root, f) && f != TemplateName
    ensures NormaliseDesignName(f) == f
  {
  }

  /**
   An empty argument means "the profile's configured design": the same path as
   loading the configured value, or the default design when that variable is missing.
   */
  lemma EmptyNameUsesConfiguredDesign(profile: int, config: map<string, string>)
    ensures ImageCVarName(profile) in config ==>
      OverlayPath("", profile, config) == OverlayPath(config[ImageCVarName(profile)], profile, config)
    ensures ImageCVarName(profile) !in config ==>
      OverlayPath("", profile, config) == ProfileDir(profile) + DefaultDesign
  {
    assert !IsPrefix(Root, DefaultDesign);
  }

  /** Sprites, outlines and the design image of a profile are read from one directory. */
  lemma SpritesAndDesignShareDirectory(s: Overlay, relativePath: string, profile: int, config: map<string, string>, key: string)
    ensures var r := LoadOverlayImage(LoadAllImages(s, profile), relativePath, profile, config);
      && (key in KeyNames ==> r.keys[key].pressed.Some? && IsPrefix(ProfileDir(profile), r.keys[key].pressed.value))
      && IsPrefix(ProfileDir(profile), r.outlinesImage.value)
      && IsPrefix(ProfileDir(profile), r.currentOverlayPath)
  {
    var loaded := LoadAllImages(s, profile);
    if key in KeyNames {
      assert loaded.keys[key] == FreshKey(profile, key);
    }
  }
}
