# Custom KBM Overlay — a Dafny model

Custom KBM Overlay is a game-overlay plugin that draws a keyboard-and-mouse diagram
over the game. Pressed keys light up and fade out after release, tinted by a chosen
colour or by the car's boost/supersonic state. An animated background can replace the
static design image, and a keys-per-minute (KPM) readout counts presses over the last
minute. A companion Python script (`generate_templates.py`) draws the template images
and one highlight sprite per key, cropped to a common bounding box.

This project models the sequential logic of the plugin and of the generator.

| file | module | what it models |
|---|---|---|
| `strings.dfy` | `Strings` | `std::string` ordering (the order of a `std::map`), decimal text and its parse |
| `state.dfy` | `State` | the `KeyImages` record and the plugin fields (`CustomKBMOverlay.h`) |
| `assets.dfy` | `Assets` | profile → configuration name and sub-directory, design-name normalisation, `LoadAllImages`, `LoadOverlayImage` |
| `keystate.dfy` | `KeyState` | frame-time clamp, per-key fade, the press count, the KPM queue and its pruning |
| `background.dfy` | `Background` | `LoadBackgroundSequence` over a given directory listing and an abstract sort order |
| `compose.dfy` | `Compose` | the draw list of a frame: design or animation frame, outlines, highlights, readout |
| `render.dfy` | `Render` | one `Render` call (state step plus draws), the invariant it keeps, and `onLoad`'s loads |
| `layout.dfy` | `Layout` | the generator's integer geometry: key rectangles, layout filters, crop box, size marker, output paths |

Host services become inputs:
- the set `down` of keys held this frame (the `GetAsyncKeyState` polls);
- the steady-clock time `now`, the screen size and the configuration values (`Settings`);
- the set `loaded` of image paths that are ready to draw (`IsLoadedForCanvas`);
- a `Listing` of the background folder;
- a total preorder `le` standing for `StrCmpLogicalW`.

Images are identified by the path they are created from. Times and opacities are exact
reals. Colours are tags (`Custom`, `Rainbow`, `Boost`, `SupersonicPulse`, `White`). A
`std::map` visits its keys in ascending order. That order is a parameter `order` of
the step, required to enumerate the 31 tracked names in strictly ascending order.
`Assets.KeyMapOrder` shows that `Assets.AscendingKeyNames` is such an enumeration.
`State.Constructed` is the plugin object before `onLoad`: no keys, no frames, index 0,
timer 0, status "No folder loaded", and both game-state flags false
(`CustomKBMOverlay.h:34-78`).

Where a description of the plugin and its code differ, the model follows the code:
- Under "supersonic", the highlight is the supersonic colour scaled by a pulse
  (`CustomKBMOverlay.cpp:440-446`). The deep-blue-to-cyan blend computed into
  `baseColor` (lines 302-334) is never drawn, so it is not modelled.
- The KPM queue is pruned only from its front, and only for entries more than
  60 s old (`CustomKBMOverlay.cpp:355`). `KeyState.PruneKeepsRecent` shows that this
  equals filtering out every older entry as long as the queue is in time order.
  `Render.Valid` keeps that order from frame to frame.

## Model

| member | source | states |
|---|---|---|
| Assets.ImageCVarName | CustomKBMOverlay.cpp:120-126 | The design variable is `kbm_overlay_image_` plus the profile's tag: 1 → wasd, 2 → mouse, and every other integer → full. |
| Assets.SubDir | CustomKBMOverlay.cpp:130-133 | The full profile uses no sub-directory. The others use `layouts/<tag>/`, with the same profile-to-tag mapping as the variable name. |
| Assets.TemplatePath | CustomKBMOverlay.cpp:128-138 | A template path is the profile directory (`CustomKBMOverlay/` plus sub-directory) followed by exactly the requested file name. |
| Assets.StripLegacyPrefix | CustomKBMOverlay.cpp:170-173 | A name starting with `CustomKBMOverlay/` loses exactly that prefix. Any other name is unchanged. |
| Assets.NormaliseDesignName | CustomKBMOverlay.cpp:170-174 | The result is never `keyboard_template.png`. It is the default design, the input, or the input minus one prefix. Without the prefix and unless upgraded, it is the input. |
| Assets.DesignChoice | CustomKBMOverlay.cpp:161-168 | A non-empty argument is used as given. An empty one uses the profile's configured value, or `keyboard_bg.png` when that variable is missing. |
| Assets.OverlayPath | CustomKBMOverlay.cpp:159-181 | The design path starts with the profile directory. Its file part is never the old template name, and it equals the template path of that file part. |
| Assets.LoadOverlayImage | CustomKBMOverlay.cpp:159-186 | The design image and the current path become the overlay path. The outline image becomes the profile's `keyboard_outlines.png`. No other field changes. |
| Assets.FreshKey | CustomKBMOverlay.cpp:151-156 | A freshly loaded key has sprite `<dir><name>_pressed.png`, is not pressed and has opacity 0 (the `KeyImages` defaults). |
| Assets.InstallKeys | CustomKBMOverlay.cpp:151-156 | After the loop, the listed names map to fresh records and all other entries are untouched. The key set grows by exactly the listed names. |
| Assets.LoadAllImages | CustomKBMOverlay.cpp:140-157 | Every tracked key is (re)loaded fresh. Other keys and all other fields are unchanged. |
| Assets.KeyMapOrder | CustomKBMOverlay.h:40 | `AscendingKeyNames` lists exactly the 31 tracked names in strictly ascending byte order: the order a `std::map` visits them. |
| Assets.KeyNameCount | CustomKBMOverlay.cpp:142-149 | The 31 listed key names are pairwise different. |
| Assets.KeyTableAfterLoad | CustomKBMOverlay.cpp:140-157 | Loading into an empty table gives exactly the 31 tracked keys, each with a fresh record. |
| Assets.LegacyPrefixStripped | CustomKBMOverlay.cpp:170-174 | `CustomKBMOverlay/x` normalises to `x`, or to the design name when `x` is the old template name. |
| Assets.DoubledPrefixKeepsOne | CustomKBMOverlay.cpp:171-173 | A doubled prefix is removed once: one copy remains. |
| Assets.PlainNameKept | CustomKBMOverlay.cpp:170-174 | A name without the prefix, other than the old template name, is kept unchanged. |
| Assets.EmptyNameUsesConfiguredDesign | CustomKBMOverlay.cpp:161-168 | An empty name loads the same path as the configured value, or `<profile dir>keyboard_bg.png` when the variable is missing. |
| Assets.SpritesAndDesignShareDirectory | CustomKBMOverlay.cpp:128-185 | After both loads, every tracked key's sprite, the outlines and the design path all lie in the same profile directory. |
| Background.Extension | CustomKBMOverlay.cpp:214 | `path::extension`: non-empty exactly when the name is not `..` and has a dot after its first character. It is then the suffix from the last dot, never the whole name. |
| Background.PngExtension | CustomKBMOverlay.cpp:214 | Any non-empty stem followed by `.png` has extension `.png`. The bare name `.png` has none. |
| Background.PngFileIsFrame | CustomKBMOverlay.cpp:214-215 | A regular file `<stem>.png` with a non-empty stem is taken as a frame. A non-regular entry of that name is not, and neither is a file named just `.png`. |
| Background.FrameFilesAppend | CustomKBMOverlay.cpp:213-221 | The frame files of two listings in sequence are those of the first followed by those of the second. |
| Background.CollectFrames | CustomKBMOverlay.cpp:212-221 | The scan returns the first min(150, n) regular `.png` entries in iteration order. |
| Background.FrameFilesFull | CustomKBMOverlay.cpp:216-218 | Once a prefix of the listing has 150 frame files, stopping there gives the same 150 frames as scanning everything. |
| Background.SortFrames | CustomKBMOverlay.cpp:228-230 | The sort output is ordered by the comparison and is a permutation of its input. |
| Background.LoadBackgroundSequence | CustomKBMOverlay.cpp:188-245 | Empty name: frames cleared, index 0, timer 0, "No folder entered.". Missing folder, non-directory or no `.png`: only the status changes. Otherwise: 1 to 150 frames, a sorted permutation of the first frame files, index and timer reset, and the success text with the count. |
| KeyState.FrameDelta | CustomKBMOverlay.cpp:286-289 | A gap above 0.1 s becomes 0.016 s and any other gap is kept, so a non-negative gap yields a delta in [0, 0.1]. |
| KeyState.ApplyPolled | CustomKBMOverlay.cpp:253-283 | Every tracked key, inserted unlit if missing, gets `isPressed` = held. Nothing else in any record changes, and untracked keys are untouched. |
| KeyState.FadeKey | CustomKBMOverlay.cpp:340-351 | Pressed → opacity 1. Released with fade > 0.001 → max(0, op − dt/fade). Otherwise → 0. The result stays in [0, 1], and a released key never brightens. |
| KeyState.FadePass | CustomKBMOverlay.cpp:336-352 | Visiting `order`, each visited key is faded once, the others are kept, and the count equals the number of press edges among them. |
| KeyState.FadeKeepsUnitRange | CustomKBMOverlay.cpp:340-351 | If all opacities start in [0, 1], they are still in [0, 1] after the pass. |
| KeyState.ReleasedFadesLinearly | CustomKBMOverlay.cpp:346-348 | Over released frames totalling t seconds, a key goes from op to max(0, op − t/fade). |
| KeyState.ReleasedKeyGoesDark | CustomKBMOverlay.cpp:346-351 | Once the frames since release add up to the fade duration, the key is dark. |
| KeyState.ReleasedStaysDark | CustomKBMOverlay.cpp:346-351 | A dark released key stays dark. |
| KeyState.Prune | CustomKBMOverlay.cpp:354-357 | Pruning removes a front segment whose entries are all more than 60 s old. The new front, if any, is within 60 s. |
| KeyState.PruneKeepsRecent | CustomKBMOverlay.cpp:354-357 | On a time-ordered queue, front pruning keeps exactly the entries of the last minute (`Recent`). |
| KeyState.RecordPresses | CustomKBMOverlay.cpp:340-357 | Pushing one `now` per press and pruning gives a time-ordered queue within [now − 60, now]. It equals the last-minute filter and keeps every new press. |
| KeyState.PrunedWindow | CustomKBMOverlay.cpp:354-357 | After pruning a pushed queue, every entry is within the window and none of the new entries is lost. |
| Compose.Trunc | CustomKBMOverlay.cpp:383 | `(int)` truncates toward zero. A non-negative r gives the largest integer at most r. A negative r gives the smallest integer at least r. |
| Compose.TruncUnique | CustomKBMOverlay.cpp:383 | Any integer within one of r on the zero side is the truncation, and truncation is symmetric: Trunc(−r) = −Trunc(r). |
| Compose.HighlightTint | CustomKBMOverlay.cpp:411-451 | With reactive colours on, supersonic wins, then boosting. Otherwise the configured colour (rainbow or custom) is used, and never plain white. Each case holds in both directions. |
| Compose.FrameTick | CustomKBMOverlay.cpp:373-378 | The tick is floor(elapsed × max(fps, 1)). |
| Compose.FrameIndex | CustomKBMOverlay.cpp:373-380 | The frame index is always a valid index into the frames. |
| Compose.FrameIndexAdvances | CustomKBMOverlay.cpp:373-378 | One frame period later the index moves to the next frame, wrapping after the last. |
| Compose.BackgroundDraws | CustomKBMOverlay.cpp:368-399 | With animation on and frames present, the draw is the current frame if it is loaded, and never the static design. Otherwise the static design is drawn if loaded. The draw is white at design × master opacity. |
| Compose.OutlineDraws | CustomKBMOverlay.cpp:401-408 | The outline layer is drawn exactly when it is loaded, at master opacity. |
| Compose.LitKeys | CustomKBMOverlay.cpp:432-435 | A key is listed exactly when it is visited, its opacity is > 0.001 and its sprite is loaded. |
| Compose.LitKeysAscending | CustomKBMOverlay.cpp:432-436 | Highlights keep the map's ascending key order. |
| Compose.HighlightDraws | CustomKBMOverlay.cpp:432-458 | Every highlight is a loaded texture at the anchor and scale, in the frame's highlight colour, and there is at most one per visited key. |
| Compose.HighlightDrawsMatchLitKeys | CustomKBMOverlay.cpp:432-458 | The i-th highlight is the sprite of the i-th lit key, at master × key opacity. |
| Compose.HighlightsAreLitKeys | CustomKBMOverlay.cpp:435-456 | A key's highlight is drawn if and only if the key is lit. |
| Compose.KpmDraws | CustomKBMOverlay.cpp:460-468 | The readout is drawn exactly when enabled. It reads `KPM: ` followed by digits that parse back to the queue length. |
| Compose.FrameDraws | CustomKBMOverlay.cpp:368-468 | The layers are in order (design, outlines, highlights, readout). All textures share the anchor and scale and are loaded. An animated frame replaces the design. Highlights are exactly the lit keys. The readout comes last. The count of draws is exact. |
| Compose.LitKeyIsDrawn | CustomKBMOverlay.cpp:432-457 | A lit key's sprite, in the frame's colour and at the anchor, is among the frame's draws. |
| Render.KeyLoop | CustomKBMOverlay.cpp:336-352 | After the loop, exactly the tracked keys are stored. Each has its polled flag, an opacity of 1 if held or the faded prior value if released, and its sprite unchanged. The count equals `Presses`. |
| Render.Step | CustomKBMOverlay.cpp:285-357 | The step keeps `Valid`. The queue becomes the last minute of old entries plus one `now` per press. The clock advances, and every other field is unchanged. |
| Render.PressesAreEdges | CustomKBMOverlay.cpp:340-344 | A timestamp is pushed for a key exactly when it is held and its previous opacity was below 1. |
| Render.AtMostOnePressPerKey | CustomKBMOverlay.cpp:336-344 | A frame pushes at most one timestamp per tracked key, so at most 31. |
| Render.Frame | CustomKBMOverlay.cpp:251-468 | A frame keeps `Valid`, and every key it visits is stored. The draws are composed from the updated state. |
| Render.HeldKeyLit | CustomKBMOverlay.cpp:340-345 | A key held this frame is at opacity 1 afterwards, with its sprite unchanged, and the game-state flags are kept. |
| Render.HeldKeyIsDrawn | CustomKBMOverlay.cpp:340-456 | A held key with a loaded sprite is drawn in that same frame at master opacity, in the frame's colour. |
| Render.ReadoutCountsQueue | CustomKBMOverlay.cpp:340-466 | When shown, the readout is the frame's last draw and reads the number of presses within the last minute, this frame's included. |
| Render.OnLoad | CustomKBMOverlay.cpp:10-87 | After start-up the state is valid. The key table is exactly the 31 fresh keys, and the design and outlines come from the profile directory. The queue is empty and the flags are false. Frames are absent or at most 150 for a non-empty folder, with index and timer at 0. |
| Render.NoOverrideAtStart | CustomKBMOverlay.h:66-67 | While both game-state flags are false, highlights use the configured colour, whatever the reactive setting. |
| Render.FreshKeysDrawNothing | CustomKBMOverlay.h:34-38 | Freshly loaded keys (opacity 0) are not lit, so no highlight is drawn. |
| Layout.KeyRow | generate_templates.py:39-40 | The i-th key has the i-th name and starts i units right of x0. All keys share one band from y, 67 px high and 67 px wide, and each key ends exactly `PAD` before the next begins. |
| Layout.RowApart | generate_templates.py:36-61 | A row whose first (wider) key ends at least `PAD` before the one-unit keys start is pairwise `PAD` apart. |
| Layout.Select | generate_templates.py:84-89 | The filter keeps exactly the entries whose name is in the set. The order is stated by `Layout.SelectConcat`, `Layout.SelectAll` and `Layout.SelectNone`. |
| Layout.SelectConcat | generate_templates.py:84-89 | Filtering two tables in sequence gives the filtered first followed by the filtered second, so the dict comprehension keeps insertion order. |
| Layout.SelectAll | generate_templates.py:84-89 | A table whose every name is kept is returned unchanged. |
| Layout.SelectNone | generate_templates.py:84-89 | A table with no kept name filters to nothing. |
| Layout.KeyboardNames | generate_templates.py:36-71 | The keyboard entries are named row by row in a fixed order of 27 names. |
| Layout.KeyboardOrderTracked | CustomKBMOverlay.cpp:142-147 | That order is exactly the first 27 names of the plugin's key list. |
| Layout.AllRectsNames | generate_templates.py:33-82 | The full layout has 31 entries whose names are exactly the plugin's 31 key names. The two side buttons come in the other order. |
| Layout.WasdSelection | generate_templates.py:84-86 | The WASD layout is exactly the 27 keyboard entries, with the full layout's rectangles, in order. |
| Layout.MouseSelection | generate_templates.py:87-89 | The mouse layout is exactly the 4 mouse entries, with the full layout's rectangles, in order. |
| Layout.KeyboardNamesShort | generate_templates.py:84-98 | Every keyboard name is in the WASD key set and at most 5 characters long, so none starts with `mouse_`. |
| Layout.MouseNames | generate_templates.py:77-89 | Every mouse-button name is in the mouse key set and starts with `mouse_`. |
| Layout.RectsApart | generate_templates.py:36-82 | Any two of the 31 rectangles have at least `PAD` = 5 px of clear space between them. |
| Layout.RectsOnCanvas | generate_templates.py:12-82 | Every rectangle lies on the 800×420 canvas and has positive width and height. |
| Layout.LeastBounds | generate_templates.py:101-102 | `min` over the keyboard is infinite exactly when there are no keys. Otherwise it is attained and at most every edge. |
| Layout.GreatestBounds | generate_templates.py:103-104 | `max` is attained and at least every edge, and it is 0 when there are no keys. |
| Layout.KeyboardPart | generate_templates.py:97-98 | `kb_keys` holds exactly the entries whose name does not start with `mouse_`. |
| Layout.BoundingBoxContains | generate_templates.py:94-121 | Every keyboard rectangle is inside the crop box with 14 px to spare on each side. |
| Layout.BoundingBoxHoldsMouse | generate_templates.py:105-121 | For full and mouse layouts, the mouse body is inside with the margin. The low corner is infinite exactly for a WASD table without keys, and the two low coordinates are infinite together. |
| Layout.BoundingBoxTight | generate_templates.py:100-121 | Each finite side of the box is exactly the margin away from some keyboard rectangle or the mouse body. The high sides fall back to the margin alone when there is neither. |
| Layout.FullCrop | generate_templates.py:94-121 | The full layout crops to (26, 26)–(734, 405). |
| Layout.WasdCrop | generate_templates.py:94-121 | The WASD layout crops to (26, 26)–(571, 405). |
| Layout.MouseCrop | generate_templates.py:94-121 | The mouse layout crops to (576, 81)–(734, 324), from the mouse body alone. |
| Layout.CropOnCanvas | generate_templates.py:213-215 | For every layout the crop box is finite, non-empty and inside the 800×420 canvas. |
| Layout.SideButtonsCut | generate_templates.py:81-117 | In the mouse layout, the side buttons start at x = 572, left of the crop edge 576. The main buttons lie to the right of it. |
| Layout.MouseButtonsInsideFullCrop | generate_templates.py:73-121 | In the full layout, all four mouse buttons lie inside the crop box. |
| Layout.MarkerRoundTrip | generate_templates.py:300-304 | The marker name of a box parses back to exactly (bx1 − bx0, by1 − by0). |
| Layout.MarkerNamesDiffer | generate_templates.py:300-304 | Boxes of different sizes get different marker names. |
| Layout.FullMarker | generate_templates.py:300-304 | The full layout's marker is `DIMENSIONS_708x379`. |
| Layout.WasdMarker | generate_templates.py:300-304 | The WASD layout's marker is `DIMENSIONS_545x379`. |
| Layout.MouseMarker | generate_templates.py:300-304 | The mouse layout's marker is `DIMENSIONS_158x243`. |
| Layout.OutputDirMatchesLoader | generate_templates.py:320-324 | A file written for a layout lands at the output directory plus the sub-directory the plugin reads for that profile. |
| Layout.WrittenFiles | generate_templates.py:218-305 | The generator writes one `<name>_pressed.png` per key, then the marker, then the design, outline and combined layers. Every image shares one crop box. |
| Layout.LayoutKeysTracked | generate_templates.py:33-91 | Every key of every layout is one the plugin loads a sprite for. |
| Layout.GeneratedImagesShareCrop | generate_templates.py:289-291 | All sprites and layers of a layout are cropped with that layout's one bounding box, so they line up. |
| Layout.GeneratedSpritesWhereLoaded | generate_templates.py:293 | Each sprite is written at `<out>/<profile sub-dir><key>_pressed.png`, and its key is one the plugin tracks. |
| Layout.SpritesInDataFolder | generate_templates.py:293 | With the plugin's `CustomKBMOverlay` data directory as output, each sprite lands at the path `LoadImageTemplate` loads for that key and profile. |
| Layout.GeneratedLayersWhereLoaded | generate_templates.py:218-227 | The design, outline and combined layers are written to the output directory plus the profile's sub-directory. |
| Layout.LayersInDataFolder | generate_templates.py:218-227 | With the plugin's data directory as output, the design and outline layers land where the plugin loads them. The combined template lands beside them and is never the design path the plugin loads, whatever the configured name. |
| Layout.GeneratedMarkerBesideLayers | generate_templates.py:304-305 | The marker is written in the same profile directory and names the layout's crop size. |
| Strings.ParseNatToString | CustomKBMOverlay.cpp:466 | The decimal text `std::to_string` produces parses back to the number. |

## Left out

- Plugin registration, configuration registration, change callbacks, `gameWrapper->Execute`, the `SetVehicleInput` hook and `onUnload` (`CustomKBMOverlay.cpp:10-114`) are host plumbing. Configuration values and the game-state flags are inputs.
- Render.OnLoad models only the loads and the clock reads of `onLoad`. The configuration values it reads are parameters.
- The Win32 `GetAsyncKeyState` polls are replaced by the input set `down`.
- File-system access and image decoding are replaced by a `Listing` and a `loaded` set of paths. The log messages are not modelled.
- `StrCmpLogicalW` is an arbitrary total preorder `le`.
- Background.LoadBackgroundSequence: states that the frames are a sorted permutation of the chosen files, not which order `std::sort` (not stable) gives equal-ranked names.
- The rainbow HSV arithmetic, the `sinf` pulse and the `unsigned char` colour and alpha conversions are floating-point numerics. Colours are tags and alpha is the exact real product.
- Compose.HighlightDraws: the alpha is master × key opacity as a real, without the ×255 `unsigned char` truncation.
- Single-precision floats (`nowSec`, `dt`, the fade) are exact reals.
- The mutex guards nothing (each lock ends at once), and there is no concurrency model.
- The ImGui settings panel (`RenderSettings`) and the unused `bIsAnimated` field are not modelled.
- `baseColor` (`CustomKBMOverlay.cpp:302-334`) is never drawn, so it is not modelled.
- The generator's Pillow drawing, fonts, labels, the 0.65 alpha of the combined image, `print` and `os.makedirs` are I/O. `resize_frames.py` is not part of this model.
- Python's `int(UNIT*1.5)` and similar products are exact quarters of 72, written as integer arithmetic.
- The local `MOUSE_*` constants inside `get_bounding_box` repeat the module-level values, so one set of constants is used.
- The generator's `--layout` string is the plugin's `Profile`. Each layout writes only its own 27 or 4 sprites, while the plugin loads all 31 names. The extra sprite paths stay unloaded and are never drawn.
- Layout.Join: models `posixpath.join` only. On Windows, `os.path.join` is `ntpath` (backslashes, drive letters), which is not modelled.
- Compose.FrameIndex: `(int)(elapsed * fps)` overflows a 32-bit `int` after 2^31 frames (about 207 days at 120 fps) and can then give a negative index. The model's integers are unbounded, so this wrap-around is not modelled.
- Background.LoadBackgroundSequence: `fs::exists`, `fs::is_directory` and `fs::directory_iterator` are the throwing overloads. An unreadable folder throws `filesystem_error` rather than setting a status, and `Listing` has no error case for it.
- Layout.MarkerRoundTrip: stated for finite boxes of non-negative size only. An infinite box, which no layout produces, prints as `-inf`.
