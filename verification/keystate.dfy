/**
 The per-frame key-state update of `Render` (CustomKBMOverlay.cpp, lines 285-357):
 the polled pressed flags are stored, each key's highlight opacity snaps to 1 while
 pressed and decays linearly after release, every press edge appends a timestamp to
 the keys-per-minute queue, and timestamps older than a minute leave its front.
 */
module KeyState {
  import opened Strings
  import opened State
  import opened Assets

  /** A frame gap above this many seconds is treated as a spike (load, alt-tab). */
  const SpikeLimit: real := 0.1
  /** The frame time used in place of a spike. */
  const SpikeDelta: real := 0.016
  /** Fade durations at or below this many seconds switch a released key off at once. */
  const FadeEpsilon: real := 0.001
  /** Width of the keys-per-minute window, in seconds. */
  const KpmWindow: real := 60.0

  function Max(a: real, b: real): real {
    if a < b then b else a
  }

  /** The frame time the fade uses, given the steady-clock time since the previous frame. */
  function FrameDelta(elapsed: real): (dt: real)
    ensures 0.0 <= elapsed ==> 0.0 <= dt <= SpikeLimit
    ensures elapsed <= SpikeLimit ==> dt == elapsed
    ensures SpikeLimit < elapsed ==> dt == SpikeDelta
  {
    if elapsed > SpikeLimit then SpikeDelta else elapsed
  }

  /**
   Stores this frame's polled flags: every tracked key (inserted unlit if it was
   missing, as `std::map::operator[]` does) gets `isPressed` set; nothing else changes.
   */
  function ApplyPolled(keys: map<string, KeyImages>, down: set<string>): (r: map<string, KeyImages>)
    ensures r.Keys == keys.Keys + KeyNameSet
    ensures forall k :: k in KeyNameSet ==> r[k].isPressed == (k in down)
    ensures forall k :: k in r && k in keys ==> r[k].(isPressed := keys[k].isPressed) == keys[k]
    ensures forall k :: k in r && k !in keys ==> r[k].(isPressed := false) == Unlit
    ensures forall k :: k in keys && k !in KeyNameSet ==> r[k] == keys[k]
    ensures forall k :: k in r ==> r[k].opacity == (if k in keys then keys[k].opacity else 0.0)
    ensures forall k :: k in r ==> r[k].pressed == (if k in keys then keys[k].pressed else None)
  {
    map k | k in keys.Keys + KeyNameSet ::
      if k in KeyNameSet then (if k in keys then keys[k] else Unlit).(isPressed := k in down)
      else keys[k]
  }

  /** The key is held down but was not fully lit last frame: a new press. */
  predicate IsPressEdge(k: KeyImages) {
    k.isPressed && k.opacity < 1.0
  }

  /** One key's opacity update for a frame of length `dt` with fade duration `fade`. */
  function FadeKey(k: KeyImages, dt: real, fade: real): (r: KeyImages)
    ensures r.(opacity := k.opacity) == k
    ensures k.isPressed ==> r.opacity == 1.0
    ensures !k.isPressed && fade > FadeEpsilon ==> r.opacity == Max(0.0, k.opacity - dt / fade)
    ensures !k.isPressed && fade <= FadeEpsilon ==> r.opacity == 0.0
    ensures 0.0 <= dt && 0.0 <= k.opacity <= 1.0 ==> 0.0 <= r.opacity <= 1.0
    ensures 0.0 <= dt && 0.0 <= k.opacity && !k.isPressed ==> r.opacity <= k.opacity
  {
    if k.isPressed then k.(opacity := 1.0)
    else if fade > FadeEpsilon then
      var o := k.opacity - (1.0 / fade) * dt;
      k.(opacity := if o < 0.0 then 0.0 else o)
    else k.(opacity := 0.0)
  }

  /** The keys among `order` whose state is a press edge. */
  function EdgeKeys(keys: map<string, KeyImages>, order: seq<string>): set<string>
    requires forall k :: k in order ==> k in keys
  {
    set k | k in order && IsPressEdge(keys[k])
  }

  /**
   The fade loop: visits the keys of `order` one by one, updating each key's opacity
   and counting the press edges (each adds one timestamp to the queue).
   */
  function FadePass(keys: map<string, KeyImages>, order: seq<string>, dt: real, fade: real): (r: (map<string, KeyImages>, nat))
    requires forall k :: k in order ==> k in keys
    requires Distinct(order)
    ensures r.0.Keys == keys.Keys
    ensures forall k :: k in order ==> r.0[k] == FadeKey(keys[k], dt, fade)
    ensures forall k :: k in keys && k !in order ==> r.0[k] == keys[k]
    ensures r.1 == |EdgeKeys(keys, order)|
    decreases |order|
  {
    if order == [] then (keys, 0)
    else
      var k := order[0];
      var updated := keys[k := FadeKey(keys[k], dt, fade)];
      EdgeKeysStep(keys, updated, order);
      var rest := FadePass(updated, order[1..], dt, fade);
      (rest.0, rest.1 + if IsPressEdge(keys[k]) then 1 else 0)
  }

  /** Splitting off the first visited key: it counts once, the others are unaffected by its update. */
  lemma EdgeKeysStep(keys: map<string, KeyImages>, updated: map<string, KeyImages>, order: seq<string>)
    requires order != [] && Distinct(order)
    requires forall k :: k in order ==> k in keys
    requires updated.Keys == keys.Keys
    requires forall k :: k in keys && k != order[0] ==> updated[k] == keys[k]
    ensures forall k :: k in order[1..] ==> k in updated
    ensures Distinct(order[1..])
    ensures |EdgeKeys(keys, order)| == |EdgeKeys(updated, order[1..])| + if IsPressEdge(keys[order[0]]) then 1 else 0
  {
    var head, tail := order[0], order[1..];
    assert head !in tail by {
      forall i | 0 <= i < |tail|
        ensures tail[i] != head
      {
        assert tail[i] == order[i + 1];
      }
    }
    assert EdgeKeys(updated, tail) == EdgeKeys(keys, tail);
    if IsPressEdge(keys[head]) {
      assert EdgeKeys(keys, order) == {head} + EdgeKeys(keys, tail);
    } else {
      assert EdgeKeys(keys, order) == EdgeKeys(keys, tail);
    }
  }

  /** A fade pass keeps every opacity in [0, 1] when all of them start there. */
  lemma FadeKeepsUnitRange(keys: map<string, KeyImages>, order: seq<string>, dt: real, fade: real)
    requires forall k :: k in order ==> k in keys
    requires Distinct(order)
    requires 0.0 <= dt
    requires forall k :: k in keys ==> 0.0 <= keys[k].opacity <= 1.0
    ensures forall k :: k in keys ==> 0.0 <= FadePass(keys, order, dt, fade).0[k].opacity <= 1.0
  {
  }

  // ---- a released key over several frames ----

  function Sum(dts: seq<real>): real {
    if dts == [] then 0.0 else dts[0] + Sum(dts[1..])
  }

  /** The key after a run of frames of the given lengths. */
  function FadeFrames(k: KeyImages, dts: seq<real>, fade: real): KeyImages
    decreases |dts|
  {
    if dts == [] then k else FadeFrames(FadeKey(k, dts[0], fade), dts[1..], fade)
  }

  /** A released key dims linearly: after frames totalling `t` seconds it is at `max(0, op - t/fade)`. */
  lemma {:induction false} ReleasedFadesLinearly(k: KeyImages, dts: seq<real>, fade: real)
    requires !k.isPressed && fade > FadeEpsilon && 0.0 <= k.opacity
    requires forall i :: 0 <= i < |dts| ==> 0.0 <= dts[i]
    ensures FadeFrames(k, dts, fade).opacity == Max(0.0, k.opacity - Sum(dts) / fade)
    ensures Sum(dts) >= 0.0
    decreases |dts|
  {
    if dts != [] {
      var next := FadeKey(k, dts[0], fade);
      ReleasedFadesLinearly(next, dts[1..], fade);
      var rest := Sum(dts[1..]);
      assert dts[0] / fade + rest / fade == (dts[0] + rest) / fade;
    }
  }

  /** A released key is dark again once the frames since release add up to the fade duration. */
  lemma ReleasedKeyGoesDark(k: KeyImages, dts: seq<real>, fade: real)
    requires !k.isPressed && 0.0 <= k.opacity <= 1.0
    requires forall i :: 0 <= i < |dts| ==> 0.0 <= dts[i]
    requires dts != [] && Sum(dts) >= fade
    ensures FadeFrames(k, dts, fade).opacity == 0.0
  {
    if fade > FadeEpsilon {
      ReleasedFadesLinearly(k, dts, fade);
      QuotientAtLeastOne(Sum(dts), fade);
    } else {
      ReleasedStaysDark(FadeKey(k, dts[0], fade), dts[1..], fade);
    }
  }

  lemma QuotientAtLeastOne(a: real, b: real)
    requires a >= b > 0.0
    ensures a / b >= 1.0
  {
    assert (a / b) * b == a;
  }

  /** A released key that is dark stays dark. */
  lemma {:induction false} ReleasedStaysDark(k: KeyImages, dts: seq<real>, fade: real)
    requires !k.isPressed && k.opacity == 0.0
    requires forall i :: 0 <= i < |dts| ==> 0.0 <= dts[i]
    ensures FadeFrames(k, dts, fade).opacity == 0.0
    decreases |dts|
  {
    if dts != [] {
      ReleasedStaysDark(FadeKey(k, dts[0], fade), dts[1..], fade);
    }
  }

  // ---- the keys-per-minute queue ----

  /** `n` copies of `t`: the timestamps one frame pushes. */
  function Repeat(t: real, n: nat): (r: seq<real>)
    ensures |r| == n
    ensures forall i :: 0 <= i < n ==> r[i] == t
  {
    seq(n, _ => t)
  }

  /** The pruning loop: pops the front while it is more than a minute before `now`. */
  function Prune(q: seq<real>, now: real): (r: seq<real>)
    ensures |r| <= |q| && r == q[|q| - |r|..]
    ensures r != [] ==> now - r[0] <= KpmWindow
    ensures forall i :: 0 <= i < |q| - |r| ==> now - q[i] > KpmWindow
    decreases |q|
  {
    if q != [] && now - q[0] > KpmWindow then Prune(q[1..], now) else q
  }

  predicate NonDecreasing(q: seq<real>) {
    forall i, j :: 0 <= i < j < |q| ==> q[i] <= q[j]
  }

  /** The timestamps of the last minute, in queue order: what the counter should count. */
  function Recent(q: seq<real>, now: real): (r: seq<real>)
    ensures |r| <= |q|
    ensures forall x :: x in r ==> x in q && now - x <= KpmWindow
  {
    if q == [] then []
    else (if now - q[0] <= KpmWindow then [q[0]] else []) + Recent(q[1..], now)
  }

  lemma {:induction false} RecentOfWindow(q: seq<real>, now: real)
    requires forall i :: 0 <= i < |q| ==> now - q[i] <= KpmWindow
    ensures Recent(q, now) == q
  {
    if q != [] {
      RecentOfWindow(q[1..], now);
    }
  }

  /**
   On a queue in time order, pruning the front keeps exactly the timestamps of the last
   minute: the FIFO discipline loses nothing a full filter would keep.
   */
  lemma {:induction false} PruneKeepsRecent(q: seq<real>, now: real)
    requires NonDecreasing(q)
    ensures Prune(q, now) == Recent(q, now)
    decreases |q|
  {
    if q != [] {
      if now - q[0] > KpmWindow {
        PruneKeepsRecent(q[1..], now);
      } else {
        RecentOfWindow(q, now);
      }
    }
  }

  /** The queue update of one frame: push one `now` per press edge, then prune. */
  function RecordPresses(q: seq<real>, now: real, presses: nat): (r: seq<real>)
    requires NonDecreasing(q)
    requires forall i :: 0 <= i < |q| ==> q[i] <= now
    ensures NonDecreasing(r)
    ensures forall i :: 0 <= i < |r| ==> now - KpmWindow <= r[i] <= now
    ensures r == Recent(q + Repeat(now, presses), now)
    ensures |r| >= presses
  {
    var pushed := q + Repeat(now, presses);
    PushKeepsOrder(q, now, presses);
    PruneKeepsRecent(pushed, now);
    PrunedWindow(pushed, now, |q|);
    Prune(pushed, now)
  }

  lemma PushKeepsOrder(q: seq<real>, now: real, presses: nat)
    requires NonDecreasing(q)
    requires forall i :: 0 <= i < |q| ==> q[i] <= now
    ensures NonDecreasing(q + Repeat(now, presses))
    ensures forall i :: 0 <= i < |q + Repeat(now, presses)| ==> (q + Repeat(now, presses))[i] <= now
  {
    var p := q + Repeat(now, presses);
    forall i | 0 <= i < |p|
      ensures p[i] <= now
    {
      if i >= |q| {
        assert p[i] == Repeat(now, presses)[i - |q|];
      }
    }
  }

  /** What pruning leaves of a time-ordered queue lies within the last minute, tail included. */
  lemma PrunedWindow(p: seq<real>, now: real, oldLen: nat)
    requires NonDecreasing(p)
    requires forall i :: 0 <= i < |p| ==> p[i] <= now
    requires oldLen <= |p|
    requires forall i :: oldLen <= i < |p| ==> p[i] == now
    ensures NonDecreasing(Prune(p, now))
    ensures forall i :: 0 <= i < |Prune(p, now)| ==> now - KpmWindow <= Prune(p, now)[i] <= now
    ensures |Prune(p, now)| >= |p| - oldLen
  {
    var r := Prune(p, now);
    var d := |p| - |r|;
    assert r == p[d..];
    forall i | 0 <= i < |r|
      ensures now - KpmWindow <= r[i] <= now
    {
      assert r[i] == p[d + i];
      assert r[0] <= r[i];
    }
    if oldLen < |p| {
      assert now - p[oldLen] <= KpmWindow;
    }
  }
}
