/**
 The plugin's record types: one `KeyImages` per named key, and the `Overlay`
 record holding the fields of the plugin object that the load functions and the
 per-frame step read and write.
 */
module State {

  datatype Option<+T> = None | Some(value: T)

  /** A file below the host's data folder. An image is identified by the path it was created from. */
  type Path = string

  /**
   The per-key record. `pressed` is the highlight sprite (a null pointer is `None`),
   `isPressed` the last polled key state, `opacity` the current highlight strength.
   */
  datatype KeyImages = KeyImages(pressed: Option<Path>, isPressed: bool, opacity: real)

  /** A default-constructed `KeyImages`: no sprite, not pressed, opacity 0. */
  const Unlit: KeyImages := KeyImages(None, false, 0.0)

  /** The plugin fields the model tracks; times are seconds on the steady clock. */
  datatype Overlay = Overlay(
    keys: map<string, KeyImages>,
    overlayImage: Option<Path>,
    outlinesImage: Option<Path>,
    currentOverlayPath: string,
    backgroundFrames: seq<Path>,
    bgFrameTimer: real,
    currentFrameIndex: int,
    lastBgFolderStatus: string,
    startTime: real,
    lastRenderTime: real,
    isSupersonic: bool,
    isBoosting: bool,
    keyPressTimes: seq<real>)

  const NoFolderLoaded := "No folder loaded"

  /** The plugin object as its member initialisers leave it, before `onLoad` runs. */
  const Constructed: Overlay := Overlay(
    keys := map[],
    overlayImage := None,
    outlinesImage := None,
    currentOverlayPath := "",
    backgroundFrames := [],
    bgFrameTimer := 0.0,
    currentFrameIndex := 0,
    lastBgFolderStatus := NoFolderLoaded,
    startTime := 0.0,
    lastRenderTime := 0.0,
    isSupersonic := false,
    isBoosting := false,
    keyPressTimes := [])
}
