/**
 Frame composition (`Render`, CustomKBMOverlay.cpp, lines 359-468): which draw
 commands a frame issues and in what order. Colours are tags; an image counts as
 drawable when its path is in the `loaded` set (`IsLoadedForCanvas`).
 */
module Compose {
  import opened Strings
  import opened State
  import opened KeyState

  /** The tint a draw uses: plain white, or one of the highlight colours. */
  datatype Tint = White | Custom | Rainbow | Boost | SupersonicPulse

  datatype Layer = Design | Outlines | Highlight

  /** One canvas call sequence: set colour and position, then draw a texture or the readout. */
  datatype Draw =
    | Texture(layer: Layer, image: Path, tint: Tint, alpha: real, x: int, y: int, scale: real)
    | Text(text: string, x: int, y: int, size: real, alpha: real)

  /** The configuration values `Render` reads. */
  datatype Settings = Settings(
    posX: real, posY: real, scale: real,
    masterOpacity: real, designOpacity: real,
    rainbow: bool, reactiveRgb: bool, fadeSpeed: real,
    showKpm: bool, animated: bool, fps: real)

  /** A C++ `(int)` conversion: truncation toward zero. */
  function Trunc(r: real): (i: int)
    ensures 0.0 <= r ==> i as real <= r < i as real + 1.0
    ensures r < 0.0 ==> i as real - 1.0 < r <= i as real
  {
    if r >= 0.0 then r.Floor else -((-r).Floor)
  }

  /** Truncation is the one integer within 1 of `r` on the zero side, so it is symmetric about zero. */
  lemma TruncUnique(r: real, j: int)
    requires 0.0 <= r ==> j as real <= r < j as real + 1.0
    requires r < 0.0 ==> j as real - 1.0 < r <= j as real
    ensures j == Trunc(r)
    ensures Trunc(-r) == -j
  {
  }

  /**
   The highlight colour of the frame: with reactive colours on, supersonic beats
   boosting, which beats the configured (custom or rainbow) colour.
   */
  function HighlightTint(rainbow: bool, reactive: bool, supersonic: bool, boosting: bool): (t: Tint)
    ensures t == SupersonicPulse <==> reactive && supersonic
    ensures t == Boost <==> reactive && !supersonic && boosting
    ensures t == Rainbow <==> rainbow && !(reactive && (supersonic || boosting))
    ensures t == Custom <==> !rainbow && !(reactive && (supersonic || boosting))
    ensures t != White
  {
    var configured := if rainbow then Rainbow else Custom;
    if reactive then
      if supersonic then SupersonicPulse
      else if boosting then Boost
      else configured
    else configured
  }

  function EffectiveFps(fps: real): (f: real)
    ensures f >= 1.0
  {
    if fps < 1.0 then 1.0 else fps
  }

  /** Whole frame periods elapsed since the start: the truncated product of time and rate. */
  function FrameTick(elapsed: real, fps: real): (n: nat)
    requires 0.0 <= elapsed
    ensures n as real <= elapsed * EffectiveFps(fps) < n as real + 1.0
  {
    NonNegativeProduct(elapsed, EffectiveFps(fps));
    (elapsed * EffectiveFps(fps)).Floor
  }

  /** The animation frame shown `elapsed` seconds after start, out of `count` frames. */
  function FrameIndex(elapsed: real, fps: real, count: nat): (i: nat)
    requires 0.0 <= elapsed && 0 < count
    ensures i < count
  {
    FrameTick(elapsed, fps) % count
  }

  /** One frame period later the animation shows the next frame, wrapping after the last. */
  lemma FrameIndexAdvances(elapsed: real, fps: real, count: nat)
    requires 0.0 <= elapsed && 0 < count
    ensures FrameIndex(elapsed + 1.0 / EffectiveFps(fps), fps, count) == (FrameIndex(elapsed, fps, count) + 1) % count
  {
    TickAdvances(elapsed, fps);
    ModSucc(FrameTick(elapsed, fps), count);
  }

  lemma TickAdvances(elapsed: real, fps: real)
    requires 0.0 <= elapsed
    ensures 0.0 <= elapsed + 1.0 / EffectiveFps(fps)
    ensures FrameTick(elapsed + 1.0 / EffectiveFps(fps), fps) == FrameTick(elapsed, fps) + 1
  {
    var f := EffectiveFps(fps);
    OnePeriodLater(elapsed, f);
  }

  lemma OnePeriodLater(e: real, f: real)
    requires f >= 1.0
    ensures 0.0 < 1.0 / f
    ensures ((e + 1.0 / f) * f).Floor == (e * f).Floor + 1
  {
    assert (1.0 / f) * f == 1.0;
    assert (e + 1.0 / f) * f == e * f + (1.0 / f) * f;
  }

  lemma NonNegativeProduct(a: real, b: real)
    requires 0.0 <= a && 0.0 <= b
    ensures 0.0 <= a * b && 0 <= (a * b).Floor
  {
  }

  lemma ModSucc(n: nat, count: nat)
    requires 0 < count
    ensures (n + 1) % count == (n % count + 1) % count
  {
    var q, m := n / count, n % count;
    assert n == q * count + m;
    if m + 1 < count {
      ModUnique(n + 1, q, m + 1, count);
      ModUnique(m + 1, 0, m + 1, count);
    } else {
      assert (q + 1) * count == q * count + count;
      ModUnique(n + 1, q + 1, 0, count);
      ModUnique(m + 1, 1, 0, count);
    }
  }

  /** Euclidean division has one remainder. */
  lemma ModUnique(a: int, q: int, m: int, c: int)
    requires 0 < c && 0 <= m < c && a == q * c + m
    ensures a % c == m
  {
    var q', m' := a / c, a % c;
    assert (q - q') * c == m' - m;
    if q > q' {
      MulAtLeast(q - q', c);
    } else if q < q' {
      MulAtLeast(q' - q, c);
    }
  }

  lemma MulAtLeast(k: int, c: int)
    requires 1 <= k && 0 < c
    ensures k * c >= c
  {
  }

  /** Screen position of the overlay: the configured fractions of the screen size, truncated. */
  function Anchor(st: Settings, screenW: real, screenH: real): (int, int) {
    (Trunc(st.posX * screenW), Trunc(st.posY * screenH))
  }

  /**
   Layer 1, the design: with animation on and frames present, the frame for the
   elapsed time (if loaded) and never the static design; otherwise the static design
   image if loaded.
   */
  function BackgroundDraws(s: Overlay, st: Settings, now: real, loaded: set<Path>, x: int, y: int): (r: seq<Draw>)
    requires s.startTime <= now
    ensures |r| <= 1
    ensures forall d :: d in r ==> d.Texture? && d == Texture(Design, d.image, White, st.designOpacity * st.masterOpacity, x, y, st.scale)
    ensures st.animated && s.backgroundFrames != [] ==>
      var frame := s.backgroundFrames[FrameIndex(now - s.startTime, st.fps, |s.backgroundFrames|)];
      && (r != [] <==> frame in loaded)
      && (r != [] ==> r[0].Texture? && r[0].image == frame)
    ensures !(st.animated && s.backgroundFrames != []) ==>
      && (r != [] <==> s.overlayImage.Some? && s.overlayImage.value in loaded)
      && (r != [] ==> r[0].Texture? && r[0].image == s.overlayImage.value)
  {
    var alpha := st.designOpacity * st.masterOpacity;
    if st.animated && s.backgroundFrames != [] then
      var frame := s.backgroundFrames[FrameIndex(now - s.startTime, st.fps, |s.backgroundFrames|)];
      if frame in loaded then [Texture(Design, frame, White, alpha, x, y, st.scale)] else []
    else if s.overlayImage.Some? && s.overlayImage.value in loaded then
      [Texture(Design, s.overlayImage.value, White, alpha, x, y, st.scale)]
    else []
  }

  /** Layer 2, the static outlines and labels, at master opacity. */
  function OutlineDraws(s: Overlay, st: Settings, loaded: set<Path>, x: int, y: int): (r: seq<Draw>)
    ensures r != [] <==> s.outlinesImage.Some? && s.outlinesImage.value in loaded
    ensures r != [] ==> r == [Texture(Outlines, s.outlinesImage.value, White, st.masterOpacity, x, y, st.scale)]
  {
    if s.outlinesImage.Some? && s.outlinesImage.value in loaded then
      [Texture(Outlines, s.outlinesImage.value, White, st.masterOpacity, x, y, st.scale)]
    else []
  }

  /** A key gets a highlight this frame: visible opacity and a loaded sprite. */
  predicate Lit(k: KeyImages, loaded: set<Path>) {
    k.opacity > FadeEpsilon && k.pressed.Some? && k.pressed.value in loaded
  }

  /** The keys of `order` that are lit, in visiting order. */
  function LitKeys(keys: map<string, KeyImages>, order: seq<string>, loaded: set<Path>): (r: seq<string>)
    requires forall k :: k in order ==> k in keys
    ensures forall k :: k in r <==> k in order && Lit(keys[k], loaded)
  {
    if order == [] then []
    else (if Lit(keys[order[0]], loaded) then [order[0]] else []) + LitKeys(keys, order[1..], loaded)
  }

  /** Highlights keep the ascending key order of the map they are drawn from. */
  lemma {:induction false} LitKeysAscending(keys: map<string, KeyImages>, order: seq<string>, loaded: set<Path>)
    requires forall k :: k in order ==> k in keys
    requires Ascending(order)
    ensures Ascending(LitKeys(keys, order, loaded))
  {
    if order != [] {
      var tail := order[1..];
      assert Ascending(tail) by {
        forall i | 0 < i < |tail|
          ensures Less(tail[i - 1], tail[i])
        {
          assert tail[i - 1] == order[i] && tail[i] == order[i + 1];
        }
      }
      LitKeysAscending(keys, tail, loaded);
      var rest := LitKeys(keys, tail, loaded);
      if Lit(keys[order[0]], loaded) && rest != [] {
        assert rest[0] in tail;
        var j :| 0 <= j < |tail| && tail[j] == rest[0];
        AscendingPairwise(order, 0, j + 1);
        var r := [order[0]] + rest;
        forall i | 0 < i < |r|
          ensures Less(r[i - 1], r[i])
        {
          if i > 1 {
            assert r[i - 1] == rest[i - 2] && r[i] == rest[i - 1];
          }
        }
      }
    }
  }

  /** The highlight draw of key `k`: its sprite, tinted, faded by master opacity times the key's opacity. */
  function HighlightOf(k: KeyImages, tint: Tint, st: Settings, x: int, y: int): Draw
    requires k.pressed.Some?
  {
    Texture(Highlight, k.pressed.value, tint, st.masterOpacity * k.opacity, x, y, st.scale)
  }

  /** Layer 3: one highlight per lit key, in visiting order. */
  function HighlightDraws(keys: map<string, KeyImages>, order: seq<string>, loaded: set<Path>,
                          tint: Tint, st: Settings, x: int, y: int): (r: seq<Draw>)
    requires forall k :: k in order ==> k in keys
    ensures |r| <= |order|
    ensures forall d :: d in r ==> d.Texture? && d.layer == Highlight && d.tint == tint
                                   && d.x == x && d.y == y && d.scale == st.scale && d.image in loaded
  {
    if order == [] then []
    else
      var k := order[0];
      var rest := HighlightDraws(keys, order[1..], loaded, tint, st, x, y);
      if Lit(keys[k], loaded) then [HighlightOf(keys[k], tint, st, x, y)] + rest else rest
  }

  /** The i-th highlight belongs to the i-th lit key: exactly the lit keys are drawn, in order. */
  lemma {:induction false} HighlightDrawsMatchLitKeys(keys: map<string, KeyImages>, order: seq<string>, loaded: set<Path>,
                                                     tint: Tint, st: Settings, x: int, y: int)
    requires forall k :: k in order ==> k in keys
    ensures var r := HighlightDraws(keys, order, loaded, tint, st, x, y);
            var lit := LitKeys(keys, order, loaded);
            && |r| == |lit|
            && forall i :: 0 <= i < |r| ==> keys[lit[i]].pressed.Some? && r[i] == HighlightOf(keys[lit[i]], tint, st, x, y)
  {
    if order != [] {
      HighlightDrawsMatchLitKeys(keys, order[1..], loaded, tint, st, x, y);
      var rest := HighlightDraws(keys, order[1..], loaded, tint, st, x, y);
      var litRest := LitKeys(keys, order[1..], loaded);
      if Lit(keys[order[0]], loaded) {
        var r := HighlightDraws(keys, order, loaded, tint, st, x, y);
        var lit := LitKeys(keys, order, loaded);
        assert r == [HighlightOf(keys[order[0]], tint, st, x, y)] + rest;
        assert lit == [order[0]] + litRest;
        forall i | 0 <= i < |r|
          ensures keys[lit[i]].pressed.Some? && r[i] == HighlightOf(keys[lit[i]], tint, st, x, y)
        {
          if i > 0 {
            assert r[i] == rest[i - 1] && lit[i] == litRest[i - 1];
          }
        }
      } else {
        assert LitKeys(keys, order, loaded) == litRest;
      }
    }
  }

  /** A key's highlight is among the draws exactly when the key is lit. */
  lemma HighlightsAreLitKeys(keys: map<string, KeyImages>, order: seq<string>, loaded: set<Path>,
                             tint: Tint, st: Settings, x: int, y: int)
    requires forall k :: k in order ==> k in keys
    ensures var r := HighlightDraws(keys, order, loaded, tint, st, x, y);
            forall k :: k in order && Lit(keys[k], loaded) ==> HighlightOf(keys[k], tint, st, x, y) in r
    ensures var r := HighlightDraws(keys, order, loaded, tint, st, x, y);
            forall d :: d in r ==> exists k :: k in order && Lit(keys[k], loaded) && d == HighlightOf(keys[k], tint, st, x, y)
  {
    var r := HighlightDraws(keys, order, loaded, tint, st, x, y);
    var lit := LitKeys(keys, order, loaded);
    HighlightDrawsMatchLitKeys(keys, order, loaded, tint, st, x, y);
    forall k | k in order && Lit(keys[k], loaded)
      ensures HighlightOf(keys[k], tint, st, x, y) in r
    {
      var i :| 0 <= i < |lit| && lit[i] == k;
      assert r[i] == HighlightOf(keys[k], tint, st, x, y);
    }
    forall d | d in r
      ensures exists k :: k in order && Lit(keys[k], loaded) && d == HighlightOf(keys[k], tint, st, x, y)
    {
      var i :| 0 <= i < |r| && r[i] == d;
      assert lit[i] in lit;
    }
  }

  const KpmLabel := "KPM: "

  /** The count a reader sees in a draw list's last element, when that is a well-formed readout. */
  function Readout(d: seq<Draw>): Option<nat> {
    if d != [] && d[|d| - 1].Text? && IsPrefix(KpmLabel, d[|d| - 1].text)
       && IsDigits(d[|d| - 1].text[|KpmLabel|..])
    then Some(ParseNat(d[|d| - 1].text[|KpmLabel|..]))
    else None
  }

  /** Layer 4: the keys-per-minute readout, 30 scaled pixels above the overlay. */
  function KpmDraws(st: Settings, pressCount: nat, x: int, y: int): (r: seq<Draw>)
    ensures r != [] <==> st.showKpm
    ensures r != [] ==> |r| == 1 && Readout(r) == Some(pressCount)
  {
    if st.showKpm then
      var text := KpmLabel + NatToString(pressCount);
      assert text[|KpmLabel|..] == NatToString(pressCount);
      ParseNatToString(pressCount);
      [Text(text, x, y - Trunc(30.0 * st.scale), st.scale * 2.0, st.masterOpacity)]
    else []
  }

  /** Stacking position of a draw: design, outlines, highlights, readout. */
  function Rank(d: Draw): nat {
    match d
    case Text(_, _, _, _, _) => 3
    case Texture(layer, _, _, _, _, _, _) =>
      match layer
      case Design => 0
      case Outlines => 1
      case Highlight => 2
  }

  /** No draw is stacked above one of a higher layer. */
  predicate Layered(r: seq<Draw>) {
    forall i, j :: 0 <= i < j < |r| ==> Rank(r[i]) <= Rank(r[j])
  }

  predicate AllRank(r: seq<Draw>, k: nat) {
    forall d :: d in r ==> Rank(d) == k
  }

  lemma LayeredConcat(a: seq<Draw>, b: seq<Draw>, c: seq<Draw>, d: seq<Draw>)
    requires AllRank(a, 0) && AllRank(b, 1) && AllRank(c, 2) && AllRank(d, 3)
    ensures Layered(a + b + c + d)
  {
    var r := a + b + c + d;
    forall i | 0 <= i < |r|
      ensures Rank(r[i]) == if i < |a| then 0 else if i < |a| + |b| then 1 else if i < |a| + |b| + |c| then 2 else 3
    {
      if i < |a| { assert r[i] == a[i]; }
      else if i < |a| + |b| { assert r[i] == b[i - |a|]; }
      else if i < |a| + |b| + |c| { assert r[i] == c[i - |a| - |b|]; }
      else { assert r[i] == d[i - |a| - |b| - |c|]; }
    }
  }

  /** The four layers of a frame's draw list, bottom to top. */
  function Layers(s: Overlay, st: Settings, screenW: real, screenH: real, now: real,
                  order: seq<string>, loaded: set<Path>): (seq<Draw>, seq<Draw>, seq<Draw>, seq<Draw>)
    requires s.startTime <= now
    requires forall k :: k in order ==> k in s.keys
  {
    var (x, y) := Anchor(st, screenW, screenH);
    var tint := HighlightTint(st.rainbow, st.reactiveRgb, s.isSupersonic, s.isBoosting);
    (BackgroundDraws(s, st, now, loaded, x, y),
     OutlineDraws(s, st, loaded, x, y),
     HighlightDraws(s.keys, order, loaded, tint, st, x, y),
     KpmDraws(st, |s.keyPressTimes|, x, y))
  }

  /**
   The draw list of a frame, for the state after this frame's update. Layers come
   in fixed order, every texture is drawn at the same anchor and scale, with
   animation on and frames present the static design is not drawn, a key's sprite is
   drawn exactly when the key is lit, and the readout, when shown, comes last and
   shows the queue length.
   */
  function FrameDraws(s: Overlay, st: Settings, screenW: real, screenH: real, now: real,
                   order: seq<string>, loaded: set<Path>): (r: seq<Draw>)
    requires s.startTime <= now
    requires forall k :: k in order ==> k in s.keys
    ensures Layered(r)
    ensures forall d :: d in r && d.Texture? ==>
      (d.x, d.y) == Anchor(st, screenW, screenH) && d.scale == st.scale && d.image in loaded
    ensures st.animated && s.backgroundFrames != [] ==>
      forall d :: d in r && d.Texture? && d.layer == Design ==>
        d.image == s.backgroundFrames[FrameIndex(now - s.startTime, st.fps, |s.backgroundFrames|)]
    ensures HighlightsOfLitKeys(r, s, st, screenW, screenH, order, loaded)
    ensures st.showKpm <==> r != [] && r[|r| - 1].Text?
    ensures st.showKpm ==> Readout(r) == Some(|s.keyPressTimes|)
    ensures |r| == |BackgroundDraws(s, st, now, loaded, 0, 0)| + |OutlineDraws(s, st, loaded, 0, 0)|
                   + |LitKeys(s.keys, order, loaded)| + (if st.showKpm then 1 else 0)
  {
    ComposeLayered(s, st, screenW, screenH, now, order, loaded);
    ComposeAnchored(s, st, screenW, screenH, now, order, loaded);
    ComposeAnimated(s, st, screenW, screenH, now, order, loaded);
    ComposeHighlights(s, st, screenW, screenH, now, order, loaded);
    ComposeReadout(s, st, screenW, screenH, now, order, loaded);
    ComposeCount(s, st, screenW, screenH, now, order, loaded);
    Flatten(Layers(s, st, screenW, screenH, now, order, loaded))
  }

  /** A lit key's sprite is among the frame's draws. */
  lemma LitKeyIsDrawn(s: Overlay, st: Settings, screenW: real, screenH: real, now: real,
                      order: seq<string>, loaded: set<Path>, k: string)
    requires s.startTime <= now
    requires forall k :: k in order ==> k in s.keys
    requires k in order && Lit(s.keys[k], loaded)
    ensures HighlightOf(s.keys[k], HighlightTint(st.rainbow, st.reactiveRgb, s.isSupersonic, s.isBoosting), st,
                        Anchor(st, screenW, screenH).0, Anchor(st, screenW, screenH).1)
            in FrameDraws(s, st, screenW, screenH, now, order, loaded)
  {
    var (x, y) := Anchor(st, screenW, screenH);
    var tint := HighlightTint(st.rainbow, st.reactiveRgb, s.isSupersonic, s.isBoosting);
    var (bg, outl, hl, kpm) := Layers(s, st, screenW, screenH, now, order, loaded);
    HighlightsAreLitKeys(s.keys, order, loaded, tint, st, x, y);
    assert HighlightOf(s.keys[k], tint, st, x, y) in hl;
    ConcatMembers(bg, outl, hl, kpm);
  }

  /** A key's sprite is drawn exactly when the key is lit, tinted with the frame's highlight colour. */
  predicate HighlightsOfLitKeys(r: seq<Draw>, s: Overlay, st: Settings, screenW: real, screenH: real,
                                order: seq<string>, loaded: set<Path>)
    requires forall k :: k in order ==> k in s.keys
  {
    var tint := HighlightTint(st.rainbow, st.reactiveRgb, s.isSupersonic, s.isBoosting);
    var (x, y) := Anchor(st, screenW, screenH);
    && (forall k :: k in order && Lit(s.keys[k], loaded) ==> HighlightOf(s.keys[k], tint, st, x, y) in r)
    && (forall d :: d in r && d.Texture? && d.layer == Highlight ==>
          exists k :: k in order && Lit(s.keys[k], loaded) && d == HighlightOf(s.keys[k], tint, st, x, y))
  }

  function Flatten(p: (seq<Draw>, seq<Draw>, seq<Draw>, seq<Draw>)): seq<Draw> {
    p.0 + p.1 + p.2 + p.3
  }

  lemma ComposeLayered(s: Overlay, st: Settings, screenW: real, screenH: real, now: real,
                       order: seq<string>, loaded: set<Path>)
    requires s.startTime <= now
    requires forall k :: k in order ==> k in s.keys
    ensures Layered(Flatten(Layers(s, st, screenW, screenH, now, order, loaded)))
  {
    var (bg, outl, hl, kpm) := Layers(s, st, screenW, screenH, now, order, loaded);
    LayeredConcat(bg, outl, hl, kpm);
  }

  lemma ComposeAnchored(s: Overlay, st: Settings, screenW: real, screenH: real, now: real,
                        order: seq<string>, loaded: set<Path>)
    requires s.startTime <= now
    requires forall k :: k in order ==> k in s.keys
    ensures var r := Flatten(Layers(s, st, screenW, screenH, now, order, loaded));
      forall d :: d in r && d.Texture? ==>
        (d.x, d.y) == Anchor(st, screenW, screenH) && d.scale == st.scale && d.image in loaded
  {
    var (bg, outl, hl, kpm) := Layers(s, st, screenW, screenH, now, order, loaded);
    ConcatMembers(bg, outl, hl, kpm);
  }

  lemma ComposeAnimated(s: Overlay, st: Settings, screenW: real, screenH: real, now: real,
                        order: seq<string>, loaded: set<Path>)
    requires s.startTime <= now
    requires forall k :: k in order ==> k in s.keys
    ensures var r := Flatten(Layers(s, st, screenW, screenH, now, order, loaded));
      st.animated && s.backgroundFrames != [] ==>
        forall d :: d in r && d.Texture? && d.layer == Design ==>
          d.image == s.backgroundFrames[FrameIndex(now - s.startTime, st.fps, |s.backgroundFrames|)]
  {
    var (bg, outl, hl, kpm) := Layers(s, st, screenW, screenH, now, order, loaded);
    ConcatMembers(bg, outl, hl, kpm);
  }

  lemma ComposeHighlights(s: Overlay, st: Settings, screenW: real, screenH: real, now: real,
                          order: seq<string>, loaded: set<Path>)
    requires s.startTime <= now
    requires forall k :: k in order ==> k in s.keys
    ensures HighlightsOfLitKeys(Flatten(Layers(s, st, screenW, screenH, now, order, loaded)), s, st, screenW, screenH, order, loaded)
  {
    var (x, y) := Anchor(st, screenW, screenH);
    var tint := HighlightTint(st.rainbow, st.reactiveRgb, s.isSupersonic, s.isBoosting);
    var (bg, outl, hl, kpm) := Layers(s, st, screenW, screenH, now, order, loaded);
    HighlightsAreLitKeys(s.keys, order, loaded, tint, st, x, y);
    ConcatMembers(bg, outl, hl, kpm);
  }

  lemma ComposeReadout(s: Overlay, st: Settings, screenW: real, screenH: real, now: real,
                       order: seq<string>, loaded: set<Path>)
    requires s.startTime <= now
    requires forall k :: k in order ==> k in s.keys
    ensures var r := Flatten(Layers(s, st, screenW, screenH, now, order, loaded));
      && (st.showKpm <==> r != [] && r[|r| - 1].Text?)
      && (st.showKpm ==> Readout(r) == Some(|s.keyPressTimes|))
  {
    var (bg, outl, hl, kpm) := Layers(s, st, screenW, screenH, now, order, loaded);
    ConcatMembers(bg, outl, hl, kpm);
  }

  lemma ComposeCount(s: Overlay, st: Settings, screenW: real, screenH: real, now: real,
                     order: seq<string>, loaded: set<Path>)
    requires s.startTime <= now
    requires forall k :: k in order ==> k in s.keys
    ensures |Flatten(Layers(s, st, screenW, screenH, now, order, loaded))|
      == |BackgroundDraws(s, st, now, loaded, 0, 0)| + |OutlineDraws(s, st, loaded, 0, 0)|
         + |LitKeys(s.keys, order, loaded)| + (if st.showKpm then 1 else 0)
  {
    var (x, y) := Anchor(st, screenW, screenH);
    var tint := HighlightTint(st.rainbow, st.reactiveRgb, s.isSupersonic, s.isBoosting);
    HighlightDrawsMatchLitKeys(s.keys, order, loaded, tint, st, x, y);
  }

  /** Membership in, and the last element of, a four-layer draw list. */
  lemma ConcatMembers(a: seq<Draw>, b: seq<Draw>, c: seq<Draw>, d: seq<Draw>)
    ensures forall x :: x in a + b + c + d <==> x in a || x in b || x in c || x in d
    ensures d != [] ==> (a + b + c + d)[|a + b + c + d| - 1] == d[|d| - 1]
    ensures d == [] && a + b + c != [] ==> (a + b + c + d)[|a + b + c + d| - 1] in a + b + c
  {
    if d == [] {
      assert a + b + c + d == a + b + c;
    }
  }
}
