/**
 The plugin as a whole: the start-up sequence of `onLoad` (CustomKBMOverlay.cpp,
 lines 10-91, only the loads and clock reads) and one call of `Render` (lines
 251-468): poll, fade, count presses, prune, compose. The polled keys, the clock,
 the screen size and the set of loaded images are inputs.
 */
module Render {
  import opened Strings
  import opened State
  import opened Assets
  import opened KeyState
  import opened Background
  import opened Compose

  /**
   What holds between frames: only tracked keys are stored, opacities are in [0, 1],
   the press queue is in time order and not ahead of the last frame, and the
   animation clock started no later than the last frame.
   */
  predicate Valid(s: Overlay) {
    && s.keys.Keys <= KeyNameSet
    && (forall k :: k in s.keys ==> 0.0 <= s.keys[k].opacity <= 1.0)
    && NonDecreasing(s.keyPressTimes)
    && (forall i :: 0 <= i < |s.keyPressTimes| ==> s.keyPressTimes[i] <= s.lastRenderTime)
    && s.startTime <= s.lastRenderTime
  }

  /** A key's opacity before this frame: a key not yet in the map is default-constructed. */
  function PriorOpacity(keys: map<string, KeyImages>, k: string): real {
    if k in keys then keys[k].opacity else 0.0
  }

  /** The keys that start a press this frame: held down now and not fully lit before. */
  function Presses(keys: map<string, KeyImages>, down: set<string>): set<string> {
    set k | k in KeyNameSet && k in down && PriorOpacity(keys, k) < 1.0
  }

  /**
   The key loop of `Render`: every tracked key takes its polled flag, then each key
   in `order` is faded and its press edge counted. Held keys light fully; released
   keys lose `dt / fade` clamped at 0, or go dark at once for a fade of at most
   0.001 s; sprites are untouched. The count is the number of `Presses`.
   */
  function KeyLoop(keys: map<string, KeyImages>, down: set<string>, dt: real, fade: real, order: seq<string>)
    : (r: (map<string, KeyImages>, nat))
    requires keys.Keys <= KeyNameSet
    requires Enumerates(order, KeyNameSet)
    ensures r.0.Keys == KeyNameSet
    ensures forall k :: k in r.0 ==> r.0[k].isPressed == (k in down)
    ensures forall k :: k in r.0 ==> r.0[k].pressed == (if k in keys then keys[k].pressed else None)
    ensures forall k :: k in r.0 && k in down ==> r.0[k].opacity == 1.0
    ensures forall k :: k in r.0 && k !in down && FadeEpsilon < fade ==>
      r.0[k].opacity == Max(0.0, PriorOpacity(keys, k) - dt / fade)
    ensures forall k :: k in r.0 && k !in down && fade <= FadeEpsilon ==> r.0[k].opacity == 0.0
    ensures 0.0 <= dt && (forall k :: k in keys ==> 0.0 <= keys[k].opacity <= 1.0) ==>
      forall k :: k in r.0 ==> 0.0 <= r.0[k].opacity <= 1.0
    ensures r.1 == |Presses(keys, down)|
  {
    var polled := ApplyPolled(keys, down);
    AscendingIsDistinct(order);
    PressesAreEdges(keys, polled, down, order);
    var r := FadePass(polled, order, dt, fade);
    KeyLoopFlags(keys, down, order, polled, r.0);
    KeyLoopOpacity(keys, down, dt, fade, order, polled, r.0);
    r
  }

  lemma KeyLoopFlags(keys: map<string, KeyImages>, down: set<string>, order: seq<string>,
                     polled: map<string, KeyImages>, faded: map<string, KeyImages>)
    requires keys.Keys <= KeyNameSet
    requires Enumerates(order, KeyNameSet)
    requires polled == ApplyPolled(keys, down)
    requires faded.Keys == polled.Keys
    requires forall k :: k in order ==> k in polled && faded[k].(opacity := polled[k].opacity) == polled[k]
    ensures faded.Keys == KeyNameSet
    ensures forall k :: k in faded ==> faded[k].isPressed == (k in down)
    ensures forall k :: k in faded ==> faded[k].pressed == (if k in keys then keys[k].pressed else None)
  {
    assert polled.Keys == KeyNameSet;
    forall k | k in faded
      ensures faded[k].isPressed == (k in down)
      ensures faded[k].pressed == (if k in keys then keys[k].pressed else None)
    {
      assert k in order;
    }
  }

  lemma KeyLoopOpacity(keys: map<string, KeyImages>, down: set<string>, dt: real, fade: real, order: seq<string>,
                       polled: map<string, KeyImages>, faded: map<string, KeyImages>)
    requires keys.Keys <= KeyNameSet
    requires Enumerates(order, KeyNameSet)
    requires polled == ApplyPolled(keys, down)
    requires faded.Keys == polled.Keys
    requires forall k :: k in order ==> k in polled && faded[k] == FadeKey(polled[k], dt, fade)
    ensures forall k :: k in faded && k in down ==> faded[k].opacity == 1.0
    ensures forall k :: k in faded && k !in down && FadeEpsilon < fade ==>
      faded[k].opacity == Max(0.0, PriorOpacity(keys, k) - dt / fade)
    ensures forall k :: k in faded && k !in down && fade <= FadeEpsilon ==> faded[k].opacity == 0.0
    ensures 0.0 <= dt && (forall k :: k in keys ==> 0.0 <= keys[k].opacity <= 1.0) ==>
      forall k :: k in faded ==> 0.0 <= faded[k].opacity <= 1.0
  {
    forall k | k in faded
      ensures faded[k] == FadeKey(polled[k], dt, fade)
      ensures polled[k].isPressed == (k in down) && polled[k].opacity == PriorOpacity(keys, k)
    {
      assert k in order;
    }
  }

  /**
   The state update of `Render`: the key loop over the clamped time since the last
   frame, then one timestamp per press enters the queue, which keeps exactly its
   entries of the last minute. Nothing else changes.
   */
  function Step(s: Overlay, now: real, down: set<string>, fade: real, order: seq<string>): (r: Overlay)
    requires Valid(s) && s.lastRenderTime <= now
    requires Enumerates(order, KeyNameSet)
    ensures Valid(r)
    ensures r.keys == KeyLoop(s.keys, down, FrameDelta(now - s.lastRenderTime), fade, order).0
    ensures r.keyPressTimes == Recent(s.keyPressTimes + Repeat(now, |Presses(s.keys, down)|), now)
    ensures r.lastRenderTime == now
    ensures r.(keys := s.keys, keyPressTimes := s.keyPressTimes, lastRenderTime := s.lastRenderTime) == s
  {
    var dt := FrameDelta(now - s.lastRenderTime);
    var loop := KeyLoop(s.keys, down, dt, fade, order);
    s.(keys := loop.0, lastRenderTime := now, keyPressTimes := RecordPresses(s.keyPressTimes, now, loop.1))
  }

  /** The press edges the fade loop counts are exactly `Presses`. */
  lemma PressesAreEdges(keys: map<string, KeyImages>, polled: map<string, KeyImages>, down: set<string>, order: seq<string>)
    requires keys.Keys <= KeyNameSet
    requires polled == ApplyPolled(keys, down)
    requires Enumerates(order, KeyNameSet)
    ensures forall k :: k in order ==> k in polled
    ensures EdgeKeys(polled, order) == Presses(keys, down)
  {
    forall k
      ensures k in EdgeKeys(polled, order) <==> k in Presses(keys, down)
    {
      if k in KeyNameSet {
        assert polled[k].opacity == PriorOpacity(keys, k);
      }
    }
  }

  /** A frame presses each tracked key at most once, so it pushes at most 31 timestamps. */
  lemma AtMostOnePressPerKey(keys: map<string, KeyImages>, down: set<string>)
    ensures |Presses(keys, down)| <= |KeyNameSet| == 31
  {
    KeyNameCount();
    SubsetCardinality(Presses(keys, down), KeyNameSet);
  }

  lemma SubsetCardinality<T>(a: set<T>, b: set<T>)
    requires a <= b
    ensures |a| <= |b|
  {
    assert b == a + (b - a);
  }

  /**
   One call of `Render`: the updated state and the draws, composed from the updated
   state. Keys are visited in the map's ascending name order `order`
   (`AscendingKeyNames`, by `KeyMapOrder`).
   */
  function Frame(s: Overlay, st: Settings, now: real, down: set<string>, screenW: real, screenH: real,
                 loaded: set<Path>, order: seq<string>): (r: (Overlay, seq<Draw>))
    requires Valid(s) && s.lastRenderTime <= now
    requires Enumerates(order, KeyNameSet)
    ensures Valid(r.0)
    ensures r.0 == Step(s, now, down, st.fadeSpeed, order)
    ensures r.0.startTime <= now && forall k :: k in order ==> k in r.0.keys
    ensures r.1 == FrameDraws(r.0, st, screenW, screenH, now, order, loaded)
  {
    var next := Step(s, now, down, st.fadeSpeed, order);
    (next, FrameDraws(next, st, screenW, screenH, now, order, loaded))
  }

  /**
   A key held during a frame whose sprite is loaded is drawn in that frame at full
   (master) opacity, in the frame's highlight colour.
   */
  lemma HeldKeyIsDrawn(s: Overlay, st: Settings, now: real, down: set<string>, screenW: real, screenH: real,
                       loaded: set<Path>, order: seq<string>, k: string)
    requires Valid(s) && s.lastRenderTime <= now
    requires Enumerates(order, KeyNameSet)
    requires k in s.keys && k in down && s.keys[k].pressed.Some? && s.keys[k].pressed.value in loaded
    ensures Texture(Highlight, s.keys[k].pressed.value,
                    HighlightTint(st.rainbow, st.reactiveRgb, s.isSupersonic, s.isBoosting), st.masterOpacity,
                    Anchor(st, screenW, screenH).0, Anchor(st, screenW, screenH).1, st.scale)
            in Frame(s, st, now, down, screenW, screenH, loaded, order).1
  {
    var next := Step(s, now, down, st.fadeSpeed, order);
    HeldKeyLit(s, now, down, st.fadeSpeed, order, loaded, k);
    var tint := HighlightTint(st.rainbow, st.reactiveRgb, s.isSupersonic, s.isBoosting);
    FullHighlight(next.keys[k], tint, st, Anchor(st, screenW, screenH).0, Anchor(st, screenW, screenH).1);
    LitKeyIsDrawn(next, st, screenW, screenH, now, order, loaded, k);
  }

  /**
   A held key is fully lit after the step and keeps its sprite; the step keeps the
   game-state flags, so the frame's highlight colour is the one of the prior state.
   */
  lemma HeldKeyLit(s: Overlay, now: real, down: set<string>, fade: real, order: seq<string>, loaded: set<Path>, k: string)
    requires Valid(s) && s.lastRenderTime <= now
    requires Enumerates(order, KeyNameSet)
    requires k in s.keys && k in down && s.keys[k].pressed.Some? && s.keys[k].pressed.value in loaded
    ensures var next := Step(s, now, down, fade, order);
      && next.startTime <= now && (forall j :: j in order ==> j in next.keys)
      && k in order && Lit(next.keys[k], loaded)
      && next.keys[k].pressed == s.keys[k].pressed && next.keys[k].opacity == 1.0
      && next.isSupersonic == s.isSupersonic && next.isBoosting == s.isBoosting
  {
  }

  lemma FullHighlight(key: KeyImages, tint: Tint, st: Settings, x: int, y: int)
    requires key.pressed.Some? && key.opacity == 1.0
    ensures HighlightOf(key, tint, st, x, y) == Texture(Highlight, key.pressed.value, tint, st.masterOpacity, x, y, st.scale)
  {
  }

  /** The readout, when shown, is the last draw and shows how many presses the last minute holds. */
  lemma ReadoutCountsQueue(s: Overlay, st: Settings, now: real, down: set<string>, screenW: real, screenH: real,
                           loaded: set<Path>, order: seq<string>)
    requires Valid(s) && s.lastRenderTime <= now
    requires Enumerates(order, KeyNameSet)
    requires st.showKpm
    ensures Readout(Frame(s, st, now, down, screenW, screenH, loaded, order).1)
      == Some(|Recent(s.keyPressTimes + Repeat(now, |Presses(s.keys, down)|), now)|)
  {
  }

  /**
   `onLoad`: the clock starts, the key table and design are loaded for the layout
   profile, the configured background folder is loaded, and the frame clock is read.
   `designName` and `folderName` are the values of the profile's design variable and
   of the background-folder variable.
   */
  method OnLoad(start: real, loadedAt: real, profile: int, config: map<string, string>,
                designName: string, folderName: string, listing: Listing, le: (Path, Path) -> bool)
    returns (r: Overlay)
    requires TotalPreorder(le)
    requires start <= loadedAt
    ensures Valid(r)
    ensures r.keys.Keys == KeyNameSet
    ensures forall k :: k in r.keys ==> r.keys[k] == FreshKey(profile, k)
    ensures r.overlayImage == Some(OverlayPath(designName, profile, config))
    ensures r.outlinesImage == Some(TemplatePath(profile, OutlinesName))
    ensures r.startTime == start && r.lastRenderTime == loadedAt
    ensures r.keyPressTimes == [] && !r.isSupersonic && !r.isBoosting
    ensures folderName == "" ==> r.backgroundFrames == [] && r.lastBgFolderStatus == NoFolderEntered
    ensures r.backgroundFrames != [] ==> folderName != "" && |r.backgroundFrames| <= FrameLimit
    ensures r.currentFrameIndex == 0 && r.bgFrameTimer == 0.0
  {
    var s := Constructed.(startTime := start);
    KeyTableAfterLoad(s, profile);
    s := LoadAllImages(s, profile);
    var keys := s.keys;
    assert forall k :: k in keys ==> keys[k].opacity == 0.0;
    s := LoadOverlayImage(s, designName, profile, config);
    assert s.keys == keys && s.keyPressTimes == [] && s.startTime == start;
    s := LoadBackgroundSequence(s, folderName, listing, le);
    assert s.keys == keys && s.keyPressTimes == [] && s.startTime == start;
    r := s.(lastRenderTime := loadedAt);
    FreshStateValid(r);
  }

  /** A state with no presses recorded and every stored key dark is valid. */
  lemma FreshStateValid(s: Overlay)
    requires s.keys.Keys <= KeyNameSet
    requires forall k :: k in s.keys ==> s.keys[k].opacity == 0.0
    requires s.keyPressTimes == [] && s.startTime <= s.lastRenderTime
    ensures Valid(s)
  {
  }

  /**
   Until the vehicle-input hook reports otherwise, no game-state colour applies:
   highlights use the configured colour whatever the reactive setting.
   */
  lemma NoOverrideAtStart(st: Settings, s: Overlay)
    requires !s.isSupersonic && !s.isBoosting
    ensures HighlightTint(st.rainbow, st.reactiveRgb, s.isSupersonic, s.isBoosting)
      == if st.rainbow then Rainbow else Custom
  {
  }

  /** Right after loading no key is lit, so a first frame with no key held draws no highlight. */
  lemma FreshKeysDrawNothing(s: Overlay, profile: int, loaded: set<Path>, order: seq<string>)
    requires forall k :: k in order ==> k in s.keys
    requires forall k :: k in s.keys ==> s.keys[k] == FreshKey(profile, k)
    ensures forall k :: k in s.keys ==> !Lit(s.keys[k], loaded)
    ensures LitKeys(s.keys, order, loaded) == []
  {
    var lit := LitKeys(s.keys, order, loaded);
    if lit != [] {
      assert lit[0] in lit;
    }
  }
}
