/**
 The template generator's geometry (generate_templates.py): where each key's
 rectangle sits on the 800x420 canvas, which keys a layout keeps, the crop box
 every generated image is cut to, the empty file whose name records the crop
 size, and the directory a layout's images are written to.
 All quantities are whole pixels; `int(UNIT * 1.5)` and its kin are exact.
 */
module Layout {
  import opened Strings
  import opened State
  import opened Assets

  const CanvasW := 800
  const CanvasH := 420
  /** Width and height of a one-unit key cell, and the gap left between cells. */
  const Unit := 72
  const Pad := 5
  /** Top-left corner of the keyboard. */
  const Sx := 40
  const Sy := 40
  /** The mouse body, its button zone and the split between its two buttons. */
  const MouseX := 590
  const MouseY := 95
  const MouseW := 130
  const MouseH := 215
  const MouseBtnH := 108
  const MouseMidX := MouseX + MouseW / 2
  /** How far the two main mouse buttons sit inside the body. */
  const Inset := 4
  /** Space kept around the panel's contents by the crop. */
  const Margin := 14

  datatype Rect = Rect(x: int, y: int, w: int, h: int)

  /** A dictionary from key name to rectangle, in insertion order. */
  type Rects = seq<(string, Rect)>

  /** `int(UNIT * q / 4)`: the unit scaled by `q` quarters (72 is a multiple of 4, so nothing is cut). */
  function Quarters(q: nat): int {
    Unit * q / 4
  }

  function Square(name: string, x: int, y: int): (string, Rect) {
    (name, Rect(x, y, Unit - Pad, Unit - Pad))
  }

  /**
   One-unit keys side by side: the i-th key is named `names[i]`, starts i units
   right of `x0`, and all keys share one band below `y`; neighbours are exactly
   `Pad` apart.
   */
  function KeyRow(names: seq<string>, x0: int, y: int): (r: Rects)
    ensures |r| == |names|
    ensures forall i :: 0 <= i < |r| ==> r[i].0 == names[i] && r[i].1.x == x0 + Unit * i
    ensures forall i :: 0 <= i < |r| ==> r[i].1.y == y && r[i].1.h == Unit - Pad && r[i].1.w == Unit - Pad
    ensures forall i :: 0 <= i < |r| - 1 ==> r[i].1.x + r[i].1.w + Pad == r[i + 1].1.x
  {
    seq(|names|, i requires 0 <= i < |names| => Square(names[i], x0 + Unit * i, y))
  }

  // ---- get_key_rects ----

  function NumberRow(): Rects {
    [Square("esc", Sx, Sy)] + KeyRow(["1", "2", "3", "4", "5"], Sx + Unit, Sy)
  }

  function TopRow(): Rects {
    [("tab", Rect(Sx, Sy + Unit, Quarters(6) - Pad, Unit - Pad))]
      + KeyRow(["q", "w", "e", "r", "t"], Sx + Quarters(6), Sy + Unit)
  }

  function HomeRow(): Rects {
    [("caps", Rect(Sx, Sy + Unit * 2, Quarters(7) - Pad, Unit - Pad))]
      + KeyRow(["a", "s", "d", "f", "g"], Sx + Quarters(7), Sy + Unit * 2)
  }

  function ShiftRow(): Rects {
    [("shift", Rect(Sx, Sy + Unit * 3, Quarters(9) - Pad, Unit - Pad))]
      + KeyRow(["z", "x", "c", "v", "b"], Sx + Quarters(9), Sy + Unit * 3)
  }

  /** The bottom row sits 6 pixels lower and its keys are 10 pixels shorter. */
  function BottomRow(): Rects {
    var y := Sy + Unit * 4 + 6;
    var h := Unit - Pad - 10;
    [ ("ctrl", Rect(Sx, y, Quarters(5) - Pad, h)),
      ("alt", Rect(Sx + Quarters(5), y, Quarters(5) - Pad, h)),
      ("space", Rect(Sx + Quarters(10), y, Quarters(14) - Pad, h)) ]
  }

  /** The two main buttons inside the body, and the two side buttons left of it. */
  function MouseButtons(): Rects {
    var lbw := MouseMidX - MouseX - Inset * 2;
    var lbh := MouseBtnH - Inset * 2;
    [ ("mouse_left", Rect(MouseX + Inset, MouseY + Inset, lbw, lbh)),
      ("mouse_right", Rect(MouseMidX + Inset, MouseY + Inset, lbw - 1, lbh)),
      ("mouse_5", Rect(MouseX - 18, MouseY + 60, 12, 32)),
      ("mouse_4", Rect(MouseX - 18, MouseY + 100, 12, 32)) ]
  }

  function Keyboard(): Rects {
    NumberRow() + TopRow() + HomeRow() + ShiftRow() + BottomRow()
  }

  /** `get_key_rects('full')`. */
  function AllRects(): Rects {
    Keyboard() + MouseButtons()
  }

  const WasdKeys: set<string> := {
    "w", "a", "s", "d", "q", "e", "r", "f", "shift", "ctrl", "space", "esc", "tab", "z",
    "x", "c", "1", "2", "3", "4", "5", "caps", "alt", "g", "v", "b", "t"
  }
  const MouseKeys: set<string> := {"mouse_left", "mouse_right", "mouse_4", "mouse_5"}

  /** `{k: v for k, v in r.items() if k in keep}`. */
  function Select(r: Rects, keep: set<string>): (f: Rects)
    ensures forall p :: p in f <==> p in r && p.0 in keep
    ensures |f| <= |r|
  {
    if r == [] then []
    else (if r[0].0 in keep then [r[0]] else []) + Select(r[1..], keep)
  }

  /** `get_key_rects(layout)`: the full table, or the part a reduced layout keeps. */
  function KeyRects(layout: Profile): Rects {
    match layout
    case FullBoard => AllRects()
    case WasdOnly => Select(AllRects(), WasdKeys)
    case MouseOnly => Select(AllRects(), MouseKeys)
  }

  function Names(r: Rects): (names: seq<string>)
    ensures |names| == |r|
    ensures forall i :: 0 <= i < |r| ==> names[i] == r[i].0
  {
    seq(|r|, i requires 0 <= i < |r| => r[i].0)
  }

  // ---- names and selections ----

  lemma {:induction false} SelectConcat(a: Rects, b: Rects, keep: set<string>)
    ensures Select(a + b, keep) == Select(a, keep) + Select(b, keep)
    decreases |a|
  {
    if a == [] {
      assert a + b == b;
    } else {
      assert (a + b)[1..] == a[1..] + b;
      SelectConcat(a[1..], b, keep);
    }
  }

  lemma {:induction false} SelectAll(r: Rects, keep: set<string>)
    requires forall i :: 0 <= i < |r| ==> r[i].0 in keep
    ensures Select(r, keep) == r
    decreases |r|
  {
    if r != [] {
      SelectAll(r[1..], keep);
    }
  }

  lemma {:induction false} SelectNone(r: Rects, keep: set<string>)
    requires forall i :: 0 <= i < |r| ==> r[i].0 !in keep
    ensures Select(r, keep) == []
    decreases |r|
  {
    if r != [] {
      SelectNone(r[1..], keep);
    }
  }

  /** The keyboard keys in the order the generator enters them, which is also the plugin's order. */
  const KeyboardOrder: seq<string> :=
    ["esc", "1", "2", "3", "4", "5"] +
    ["tab", "q", "w", "e", "r", "t"] +
    ["caps", "a", "s", "d", "f", "g"] +
    ["shift", "z", "x", "c", "v", "b"] +
    ["ctrl", "alt", "space"]

  lemma KeyboardNames()
    ensures Names(Keyboard()) == KeyboardOrder
  {
    NamesConcat5(NumberRow(), TopRow(), HomeRow(), ShiftRow(), BottomRow());
    JoinRowNames(Names(NumberRow()), Names(TopRow()), Names(HomeRow()), Names(ShiftRow()), Names(BottomRow()));
  }

  /** The names of each keyboard row, row by row. */
  lemma RowNamesEach()
    ensures Names(NumberRow()) == ["esc", "1", "2", "3", "4", "5"]
    ensures Names(TopRow()) == ["tab", "q", "w", "e", "r", "t"]
    ensures Names(HomeRow()) == ["caps", "a", "s", "d", "f", "g"]
    ensures Names(ShiftRow()) == ["shift", "z", "x", "c", "v", "b"]
    ensures Names(BottomRow()) == ["ctrl", "alt", "space"]
  {
    NumberRowNames();
    TopRowNames();
    HomeRowNames();
    ShiftRowNames();
  }

  lemma NumberRowNames()
    ensures Names(NumberRow()) == ["esc", "1", "2", "3", "4", "5"]
  {
    RowNames(Square("esc", Sx, Sy), ["1", "2", "3", "4", "5"], Sx + Unit, Sy);
  }

  lemma TopRowNames()
    ensures Names(TopRow()) == ["tab", "q", "w", "e", "r", "t"]
  {
    RowNames(("tab", Rect(Sx, Sy + Unit, Quarters(6) - Pad, Unit - Pad)), ["q", "w", "e", "r", "t"], Sx + Quarters(6), Sy + Unit);
  }

  lemma HomeRowNames()
    ensures Names(HomeRow()) == ["caps", "a", "s", "d", "f", "g"]
  {
    RowNames(("caps", Rect(Sx, Sy + Unit * 2, Quarters(7) - Pad, Unit - Pad)), ["a", "s", "d", "f", "g"], Sx + Quarters(7), Sy + Unit * 2);
  }

  lemma ShiftRowNames()
    ensures Names(ShiftRow()) == ["shift", "z", "x", "c", "v", "b"]
  {
    RowNames(("shift", Rect(Sx, Sy + Unit * 3, Quarters(9) - Pad, Unit - Pad)), ["z", "x", "c", "v", "b"], Sx + Quarters(9), Sy + Unit * 3);
  }

  lemma JoinRowNames(a: seq<string>, b: seq<string>, c: seq<string>, d: seq<string>, e: seq<string>)
    requires a == Names(NumberRow()) && b == Names(TopRow()) && c == Names(HomeRow())
    requires d == Names(ShiftRow()) && e == Names(BottomRow())
    ensures a + b + c + d + e == KeyboardOrder
  {
    RowNamesEach();
  }

  lemma NamesConcat5(a: Rects, b: Rects, c: Rects, d: Rects, e: Rects)
    ensures Names(a + b + c + d + e) == Names(a) + Names(b) + Names(c) + Names(d) + Names(e)
  {
    NamesConcat(a, b);
    NamesConcat(a + b, c);
    NamesConcat(a + b + c, d);
    NamesConcat(a + b + c + d, e);
  }

  lemma RowNames(first: (string, Rect), names: seq<string>, x0: int, y: int)
    ensures Names([first] + KeyRow(names, x0, y)) == [first.0] + names
  {
  }

  lemma NamesConcat(a: Rects, b: Rects)
    ensures Names(a + b) == Names(a) + Names(b)
  {
  }

  /**
   The generator names exactly the 31 keys the plugin loads a sprite for, each once;
   only the two side buttons come in the other order.
   */
  lemma AllRectsNames()
    ensures Names(AllRects()) == KeyNames[..29] + [KeyNames[30], KeyNames[29]]
    ensures |AllRects()| == |KeyNameSet| == 31
    ensures (set i | 0 <= i < |AllRects()| :: AllRects()[i].0) == KeyNameSet
  {
    KeyboardNames();
    KeyboardOrderTracked();
    NamesConcat(Keyboard(), MouseButtons());
    assert Names(MouseButtons()) == [KeyNames[27], KeyNames[28], KeyNames[30], KeyNames[29]];
    var names := Names(AllRects());
    KeyNameCount();
    forall k | k in KeyNameSet
      ensures k in (set i | 0 <= i < |AllRects()| :: AllRects()[i].0)
    {
      var j :| 0 <= j < |KeyNames| && KeyNames[j] == k;
      var i := if j == 29 then 30 else if j == 30 then 29 else j;
      assert names[i] == k;
    }
  }

  /** The keyboard's names are the first 27 tracked names, in the same order. */
  lemma KeyboardOrderTracked()
    ensures KeyboardOrder == KeyNames[..27]
  {
    var flat := [
      "esc", "1", "2", "3", "4", "5", "tab", "q", "w", "e", "r", "t", "caps", "a",
      "s", "d", "f", "g", "shift", "z", "x", "c", "v", "b", "ctrl", "alt", "space"];
    assert KeyNames[..27] == flat;
    assert KeyboardOrder == flat;
  }

  /** The keyboard names are at most five characters long, so none starts with `mouse_`. */
  lemma KeyboardNamesShort()
    ensures forall i :: 0 <= i < |Keyboard()| ==> |Keyboard()[i].0| <= 5 && Keyboard()[i].0 in WasdKeys
  {
    KeyboardNames();
    KeyboardOrderShort(Names(Keyboard()));
  }

  lemma KeyboardOrderShort(names: seq<string>)
    requires names == KeyboardOrder
    ensures forall i :: 0 <= i < |names| ==> |names[i]| <= 5 && names[i] in WasdKeys
  {
  }

  lemma MouseNames()
    ensures forall i :: 0 <= i < |MouseButtons()| ==>
      |MouseButtons()[i].0| > 5 && MouseButtons()[i].0 in MouseKeys && IsMouseName(MouseButtons()[i].0)
  {
  }

  /** The WASD layout keeps exactly the keyboard, with the full table's rectangles, in the same order. */
  lemma WasdSelection()
    ensures KeyRects(WasdOnly) == Keyboard() && |Keyboard()| == 27
  {
    KeyboardNames();
    KeyboardNamesShort();
    MouseNames();
    SelectFirst(Keyboard(), MouseButtons(), WasdKeys);
  }

  /** The mouse layout keeps exactly the four mouse buttons, with the full table's rectangles, in the same order. */
  lemma MouseSelection()
    ensures KeyRects(MouseOnly) == MouseButtons() && |MouseButtons()| == 4
  {
    KeyboardNamesShort();
    MouseNames();
    SelectSecond(Keyboard(), MouseButtons(), MouseKeys);
  }

  lemma SelectFirst(a: Rects, b: Rects, keep: set<string>)
    requires forall i :: 0 <= i < |a| ==> a[i].0 in keep
    requires forall i :: 0 <= i < |b| ==> b[i].0 !in keep
    ensures Select(a + b, keep) == a
  {
    SelectConcat(a, b, keep);
    SelectAll(a, keep);
    SelectNone(b, keep);
    assert a + [] == a;
  }

  lemma SelectSecond(a: Rects, b: Rects, keep: set<string>)
    requires forall i :: 0 <= i < |a| ==> a[i].0 !in keep
    requires forall i :: 0 <= i < |b| ==> b[i].0 in keep
    ensures Select(a + b, keep) == b
  {
    SelectConcat(a, b, keep);
    SelectNone(a, keep);
    SelectAll(b, keep);
    assert [] + b == b;
  }

  // ---- placement ----

  /** Two rectangles with at least `Pad` pixels of clear space between them. */
  predicate Apart(a: Rect, b: Rect) {
    a.x + a.w + Pad <= b.x || b.x + b.w + Pad <= a.x || a.y + a.h + Pad <= b.y || b.y + b.h + Pad <= a.y
  }

  predicate PairwiseApart(r: Rects) {
    forall i, j :: 0 <= i < j < |r| ==> Apart(r[i].1, r[j].1)
  }

  /** Every rectangle of `a` is above every rectangle of `b`, `Pad` pixels clear. */
  predicate Above(a: Rects, b: Rects) {
    forall i, j :: 0 <= i < |a| && 0 <= j < |b| ==> a[i].1.y + a[i].1.h + Pad <= b[j].1.y
  }

  predicate Within(r: Rects, left: int, top: int, right: int, bottom: int) {
    forall i :: 0 <= i < |r| ==>
      left <= r[i].1.x && top <= r[i].1.y && r[i].1.x + r[i].1.w <= right && r[i].1.y + r[i].1.h <= bottom
  }

  lemma ConcatApart(a: Rects, b: Rects)
    requires PairwiseApart(a) && PairwiseApart(b)
    requires forall i, j :: 0 <= i < |a| && 0 <= j < |b| ==> Apart(a[i].1, b[j].1)
    ensures PairwiseApart(a + b)
  {
    var c := a + b;
    forall i, j | 0 <= i < j < |c|
      ensures Apart(c[i].1, c[j].1)
    {
      if j < |a| {
        assert c[i] == a[i] && c[j] == a[j];
      } else if i < |a| {
        assert c[i] == a[i] && c[j] == b[j - |a|];
      } else {
        assert c[i] == b[i - |a|] && c[j] == b[j - |a|];
      }
    }
  }

  /** A row: a first key of width `w0` at `x0`, then one-unit keys starting `Pad` beyond it. */
  lemma RowApart(first: (string, Rect), names: seq<string>, x0: int, y: int)
    requires first.1.y == y && first.1.x + first.1.w + Pad <= x0
    ensures PairwiseApart([first] + KeyRow(names, x0, y))
  {
    var row := KeyRow(names, x0, y);
    assert PairwiseApart(row) by {
      forall i, j | 0 <= i < j < |row|
        ensures Apart(row[i].1, row[j].1)
      {
        assert Unit * i + Unit <= Unit * j;
      }
    }
    ConcatApart([first], row);
  }

  lemma AboveApart(a: Rects, b: Rects)
    requires Above(a, b)
    ensures forall i, j :: 0 <= i < |a| && 0 <= j < |b| ==> Apart(a[i].1, b[j].1)
  {
  }

  lemma AboveConcat(a: Rects, b: Rects, c: Rects)
    requires Above(a, c) && Above(b, c)
    ensures Above(a + b, c)
  {
    var ab := a + b;
    forall i, j | 0 <= i < |ab| && 0 <= j < |c|
      ensures ab[i].1.y + ab[i].1.h + Pad <= c[j].1.y
    {
      if i < |a| {
        assert ab[i] == a[i];
      } else {
        assert ab[i] == b[i - |a|];
      }
    }
  }

  /** Each keyboard row lies in a horizontal band of its own. */
  lemma RowBands()
    ensures Within(NumberRow(), Sx, 40, 557, 107)
    ensures Within(TopRow(), Sx, 112, 557, 179)
    ensures Within(HomeRow(), Sx, 184, 557, 251)
    ensures Within(ShiftRow(), Sx, 256, 557, 323)
    ensures Within(BottomRow(), Sx, 334, 557, 391)
    ensures forall i :: 0 <= i < |NumberRow()| ==> NumberRow()[i].1.y == 40
    ensures forall i :: 0 <= i < |TopRow()| ==> TopRow()[i].1.y == 112
    ensures forall i :: 0 <= i < |HomeRow()| ==> HomeRow()[i].1.y == 184
    ensures forall i :: 0 <= i < |ShiftRow()| ==> ShiftRow()[i].1.y == 256
    ensures forall i :: 0 <= i < |BottomRow()| ==> BottomRow()[i].1.y == 334
  {
  }

  lemma RowsApart()
    ensures PairwiseApart(NumberRow()) && PairwiseApart(TopRow()) && PairwiseApart(HomeRow())
    ensures PairwiseApart(ShiftRow()) && PairwiseApart(BottomRow())
  {
    NumberRowApart();
    TopRowApart();
    HomeRowApart();
    ShiftRowApart();
    BottomRowApart();
  }

  lemma NumberRowApart()
    ensures PairwiseApart(NumberRow())
  {
    RowApart(Square("esc", Sx, Sy), ["1", "2", "3", "4", "5"], Sx + Unit, Sy);
  }

  lemma TopRowApart()
    ensures PairwiseApart(TopRow())
  {
    RowApart(("tab", Rect(Sx, Sy + Unit, Quarters(6) - Pad, Unit - Pad)), ["q", "w", "e", "r", "t"], Sx + Quarters(6), Sy + Unit);
  }

  lemma HomeRowApart()
    ensures PairwiseApart(HomeRow())
  {
    RowApart(("caps", Rect(Sx, Sy + Unit * 2, Quarters(7) - Pad, Unit - Pad)), ["a", "s", "d", "f", "g"], Sx + Quarters(7), Sy + Unit * 2);
  }

  lemma ShiftRowApart()
    ensures PairwiseApart(ShiftRow())
  {
    RowApart(("shift", Rect(Sx, Sy + Unit * 3, Quarters(9) - Pad, Unit - Pad)), ["z", "x", "c", "v", "b"], Sx + Quarters(9), Sy + Unit * 3);
  }

  lemma BottomRowApart()
    ensures PairwiseApart(BottomRow())
  {
  }

  /** Rows stacked top to bottom with a clear gap between consecutive bands. */
  lemma RowsStacked()
    ensures Above(NumberRow(), TopRow())
    ensures Above(NumberRow() + TopRow(), HomeRow())
    ensures Above(NumberRow() + TopRow() + HomeRow(), ShiftRow())
    ensures Above(NumberRow() + TopRow() + HomeRow() + ShiftRow(), BottomRow())
  {
    RowBands();
    AboveConcat(NumberRow(), TopRow(), HomeRow());
    AboveConcat(NumberRow(), TopRow(), ShiftRow());
    AboveConcat(NumberRow() + TopRow(), HomeRow(), ShiftRow());
    AboveConcat(NumberRow(), TopRow(), BottomRow());
    AboveConcat(NumberRow() + TopRow(), HomeRow(), BottomRow());
    AboveConcat(NumberRow() + TopRow() + HomeRow(), ShiftRow(), BottomRow());
  }

  /** The keyboard lies between x 40 and 557 and y 40 and 391, touching each bound. */
  lemma KeyboardExtent()
    ensures Within(Keyboard(), 40, 40, 557, 391)
    ensures Keyboard()[0].1.x == 40 && Keyboard()[0].1.y == 40
    ensures Keyboard()[23].1.x + Keyboard()[23].1.w == 557
    ensures Keyboard()[24].1.y + Keyboard()[24].1.h == 391
  {
    RowBands();
    WithinConcat(NumberRow(), TopRow(), 40, 40, 557, 391);
    WithinConcat(NumberRow() + TopRow(), HomeRow(), 40, 40, 557, 391);
    WithinConcat(NumberRow() + TopRow() + HomeRow(), ShiftRow(), 40, 40, 557, 391);
    WithinConcat(NumberRow() + TopRow() + HomeRow() + ShiftRow(), BottomRow(), 40, 40, 557, 391);
    assert Keyboard()[23] == ShiftRow()[5];
    assert Keyboard()[24] == BottomRow()[0];
  }

  lemma WithinConcat(a: Rects, b: Rects, left: int, top: int, right: int, bottom: int)
    requires Within(a, left, top, right, bottom) && Within(b, left, top, right, bottom)
    ensures Within(a + b, left, top, right, bottom)
  {
    var c := a + b;
    forall i | 0 <= i < |c|
      ensures left <= c[i].1.x && top <= c[i].1.y && c[i].1.x + c[i].1.w <= right && c[i].1.y + c[i].1.h <= bottom
    {
      if i < |a| {
        assert c[i] == a[i];
      } else {
        assert c[i] == b[i - |a|];
      }
    }
  }

  /**
   No two of the 31 rectangles overlap or touch: each pair has at least `Pad`
   pixels of clear space between them.
   */
  lemma RectsApart()
    ensures PairwiseApart(AllRects())
  {
    KeyboardApart();
    KeyboardExtent();
    assert PairwiseApart(MouseButtons());
    ConcatApart(Keyboard(), MouseButtons());
  }

  lemma KeyboardApart()
    ensures PairwiseApart(Keyboard())
  {
    RowsApart();
    RowsStacked();
    ConcatApart(NumberRow(), TopRow());
    ConcatApart(NumberRow() + TopRow(), HomeRow());
    ConcatApart(NumberRow() + TopRow() + HomeRow(), ShiftRow());
    ConcatApart(NumberRow() + TopRow() + HomeRow() + ShiftRow(), BottomRow());
  }

  /** Every rectangle lies on the canvas and has a positive size. */
  lemma RectsOnCanvas()
    ensures Within(AllRects(), 0, 0, CanvasW, CanvasH)
    ensures forall i :: 0 <= i < |AllRects()| ==> AllRects()[i].1.w > 0 && AllRects()[i].1.h > 0
  {
    KeyboardExtent();
    WithinConcat(Keyboard(), MouseButtons(), 0, 0, CanvasW, CanvasH);
    KeyboardSizes();
  }

  lemma KeyboardSizes()
    ensures forall i :: 0 <= i < |AllRects()| ==> AllRects()[i].1.w > 0 && AllRects()[i].1.h > 0
  {
    var all := AllRects();
    forall i | 0 <= i < |all|
      ensures all[i].1.w > 0 && all[i].1.h > 0
    {
      if i < 6 {
        assert all[i] == NumberRow()[i];
      } else if i < 12 {
        assert all[i] == TopRow()[i - 6];
      } else if i < 18 {
        assert all[i] == HomeRow()[i - 12];
      } else if i < 24 {
        assert all[i] == ShiftRow()[i - 18];
      } else if i < 27 {
        assert all[i] == BottomRow()[i - 24];
      } else {
        assert all[i] == MouseButtons()[i - 27];
      }
    }
  }

  // ---- get_bounding_box ----

  /** A coordinate that may be `float('inf')`, the value the empty keyboard part starts from. */
  datatype Bound = Finite(v: int) | Infinity

  /** `min(b, n)`. */
  function Lower(b: Bound, n: int): (r: Bound)
    ensures r.Finite? && r.v <= n && (b.Finite? ==> r.v <= b.v)
    ensures r.v == n || (b.Finite? && r.v == b.v)
  {
    if b.Finite? && b.v < n then b else Finite(n)
  }

  /** `b - n`; infinity stays infinite. */
  function Minus(b: Bound, n: int): (r: Bound)
    ensures r.Finite? <==> b.Finite?
    ensures r.Finite? ==> r.v + n == b.v
  {
    if b.Finite? then Finite(b.v - n) else Infinity
  }

  datatype Edge = Left | Top | Right | Bottom

  function EdgeOf(q: Rect, e: Edge): int {
    match e
    case Left => q.x
    case Top => q.y
    case Right => q.x + q.w
    case Bottom => q.y + q.h
  }

  /** Smallest `e` edge over the rectangles: `min(...)`, or infinity when there are none. */
  function Least(r: Rects, e: Edge): Bound {
    if r == [] then Infinity
    else
      var rest := Least(r[1..], e);
      if rest.Finite? && rest.v < EdgeOf(r[0].1, e) then rest else Finite(EdgeOf(r[0].1, e))
  }

  /** `Least` is infinite only for no rectangles; otherwise it is attained and below every edge. */
  lemma {:induction false} LeastBounds(r: Rects, e: Edge)
    ensures Least(r, e).Infinity? <==> r == []
    ensures Least(r, e).Finite? ==> exists i :: 0 <= i < |r| && EdgeOf(r[i].1, e) == Least(r, e).v
    ensures forall i :: 0 <= i < |r| ==> Least(r, e).Finite? && Least(r, e).v <= EdgeOf(r[i].1, e)
    decreases |r|
  {
    if r != [] {
      var rest := r[1..];
      LeastBounds(rest, e);
      var m := Least(r, e);
      if m == Least(rest, e) {
        var i :| 0 <= i < |rest| && EdgeOf(rest[i].1, e) == m.v;
        assert r[i + 1] == rest[i];
      } else {
        assert EdgeOf(r[0].1, e) == m.v;
      }
      forall i | 0 < i < |r|
        ensures m.v <= EdgeOf(r[i].1, e)
      {
        assert r[i] == rest[i - 1];
      }
    }
  }

  /** Largest `e` edge over the rectangles: `max(...)`, or 0 when there are none. */
  function Greatest(r: Rects, e: Edge): int {
    if r == [] then 0
    else if |r| == 1 then EdgeOf(r[0].1, e)
    else Max(EdgeOf(r[0].1, e), Greatest(r[1..], e))
  }

  /** `Greatest` is 0 for no rectangles; otherwise it is attained and above every edge. */
  lemma {:induction false} GreatestBounds(r: Rects, e: Edge)
    ensures r == [] ==> Greatest(r, e) == 0
    ensures r != [] ==> exists i :: 0 <= i < |r| && EdgeOf(r[i].1, e) == Greatest(r, e)
    ensures forall i :: 0 <= i < |r| ==> EdgeOf(r[i].1, e) <= Greatest(r, e)
    decreases |r|
  {
    if |r| == 1 {
      assert EdgeOf(r[0].1, e) == Greatest(r, e);
    } else if |r| > 1 {
      var rest := r[1..];
      GreatestBounds(rest, e);
      var m := Greatest(r, e);
      if m == Greatest(rest, e) {
        var i :| 0 <= i < |rest| && EdgeOf(rest[i].1, e) == m;
        assert r[i + 1] == rest[i];
      } else {
        assert EdgeOf(r[0].1, e) == m;
      }
      forall i | 0 < i < |r|
        ensures EdgeOf(r[i].1, e) <= m
      {
        assert r[i] == rest[i - 1];
      }
    }
  }

  function Max(a: int, b: int): int {
    if a < b then b else a
  }

  predicate IsMouseName(k: string) {
    IsPrefix("mouse_", k)
  }

  /** `kb_keys`: the entries that are not mouse buttons, in order. */
  function KeyboardPart(r: Rects): (kb: Rects)
    ensures forall p :: p in kb <==> p in r && !IsMouseName(p.0)
  {
    if r == [] then []
    else (if IsMouseName(r[0].0) then [] else [r[0]]) + KeyboardPart(r[1..])
  }

  /** The crop box `(bx0, by0, bx1, by1)`. */
  datatype Box = Box(x0: Bound, y0: Bound, x1: int, y1: int)

  /** Whether the layout's panel includes the mouse body. */
  predicate ShowsMouse(layout: Profile) {
    layout == FullBoard || layout == MouseOnly
  }

  /**
   `get_bounding_box`: the extent of the keyboard rectangles (and of the mouse body,
   unless the layout is WASD only), grown by `Margin` on every side. The mouse
   buttons themselves are not consulted.
   */
  function BoundingBox(r: Rects, layout: Profile): Box {
    var kb := KeyboardPart(r);
    var x0, y0, x1, y1 := Least(kb, Left), Least(kb, Top), Greatest(kb, Right), Greatest(kb, Bottom);
    if ShowsMouse(layout) then
      Box(Minus(Lower(x0, MouseX), Margin), Minus(Lower(y0, MouseY), Margin),
          Max(x1, MouseX + MouseW) + Margin, Max(y1, MouseY + MouseH) + Margin)
    else
      Box(Minus(x0, Margin), Minus(y0, Margin), x1 + Margin, y1 + Margin)
  }

  /** The crop box holds every keyboard rectangle with `Margin` pixels to spare. */
  lemma BoundingBoxContains(r: Rects, layout: Profile)
    ensures var b := BoundingBox(r, layout);
      forall p :: p in r && !IsMouseName(p.0) ==>
        && b.x0.Finite? && b.y0.Finite?
        && b.x0.v + Margin <= p.1.x && b.y0.v + Margin <= p.1.y
        && p.1.x + p.1.w + Margin <= b.x1 && p.1.y + p.1.h + Margin <= b.y1
  {
    var kb := KeyboardPart(r);
    LeastBounds(kb, Left);
    LeastBounds(kb, Top);
    GreatestBounds(kb, Right);
    GreatestBounds(kb, Bottom);
    forall p | p in r && !IsMouseName(p.0)
      ensures p in kb
    {
    }
  }

  /**
   Unless the layout is WASD only, the crop box holds the mouse body with `Margin`
   pixels to spare; it is infinite exactly when there is nothing to hold.
   */
  lemma BoundingBoxHoldsMouse(r: Rects, layout: Profile)
    ensures var b := BoundingBox(r, layout);
      ShowsMouse(layout) ==>
        && b.x0.Finite? && b.y0.Finite?
        && b.x0.v + Margin <= MouseX && b.y0.v + Margin <= MouseY
        && MouseX + MouseW + Margin <= b.x1 && MouseY + MouseH + Margin <= b.y1
    ensures var b := BoundingBox(r, layout);
      && (b.x0.Infinity? <==> !ShowsMouse(layout) && KeyboardPart(r) == [])
      && (b.x0.Infinity? <==> b.y0.Infinity?)
  {
    var kb := KeyboardPart(r);
    LeastBounds(kb, Left);
    LeastBounds(kb, Top);
  }

  /** No smaller box would do: each side of the crop box touches a keyboard rectangle or the mouse body. */
  lemma BoundingBoxTight(r: Rects, layout: Profile)
    ensures var b := BoundingBox(r, layout);
      b.x0.Finite? ==>
        (ShowsMouse(layout) && b.x0.v + Margin == MouseX) || exists p :: p in r && !IsMouseName(p.0) && b.x0.v + Margin == p.1.x
    ensures var b := BoundingBox(r, layout);
      b.y0.Finite? ==>
        (ShowsMouse(layout) && b.y0.v + Margin == MouseY) || exists p :: p in r && !IsMouseName(p.0) && b.y0.v + Margin == p.1.y
    ensures var b := BoundingBox(r, layout);
      || b.x1 == Margin
      || (ShowsMouse(layout) && b.x1 == MouseX + MouseW + Margin)
      || exists p :: p in r && !IsMouseName(p.0) && b.x1 == p.1.x + p.1.w + Margin
    ensures var b := BoundingBox(r, layout);
      || b.y1 == Margin
      || (ShowsMouse(layout) && b.y1 == MouseY + MouseH + Margin)
      || exists p :: p in r && !IsMouseName(p.0) && b.y1 == p.1.y + p.1.h + Margin
  {
    BoxWitnesses(r, KeyboardPart(r));
  }

  /** The facts about `Least` and `Greatest` of the keyboard part, restated over entries of `r`. */
  lemma BoxWitnesses(r: Rects, kb: Rects)
    requires kb == KeyboardPart(r)
    ensures forall e :: Least(kb, e).Finite? ==> exists p :: p in r && !IsMouseName(p.0) && EdgeOf(p.1, e) == Least(kb, e).v
    ensures forall e :: kb != [] ==> exists p :: p in r && !IsMouseName(p.0) && EdgeOf(p.1, e) == Greatest(kb, e)
    ensures forall p, e :: p in r && !IsMouseName(p.0) ==>
      Least(kb, e).Finite? && Least(kb, e).v <= EdgeOf(p.1, e) <= Greatest(kb, e)
  {
    forall e | true
      ensures Least(kb, e).Infinity? <==> kb == []
      ensures Least(kb, e).Finite? ==> exists i :: 0 <= i < |kb| && EdgeOf(kb[i].1, e) == Least(kb, e).v
      ensures forall i :: 0 <= i < |kb| ==> Least(kb, e).Finite? && Least(kb, e).v <= EdgeOf(kb[i].1, e)
      ensures kb != [] ==> exists i :: 0 <= i < |kb| && EdgeOf(kb[i].1, e) == Greatest(kb, e)
      ensures forall i :: 0 <= i < |kb| ==> EdgeOf(kb[i].1, e) <= Greatest(kb, e)
    {
      LeastBounds(kb, e);
      GreatestBounds(kb, e);
    }
    forall e | Least(kb, e).Finite?
      ensures exists p :: p in r && !IsMouseName(p.0) && EdgeOf(p.1, e) == Least(kb, e).v
    {
      var i :| 0 <= i < |kb| && EdgeOf(kb[i].1, e) == Least(kb, e).v;
      assert kb[i] in kb;
    }
    forall e | kb != []
      ensures exists p :: p in r && !IsMouseName(p.0) && EdgeOf(p.1, e) == Greatest(kb, e)
    {
      var i :| 0 <= i < |kb| && EdgeOf(kb[i].1, e) == Greatest(kb, e);
      assert kb[i] in kb;
    }
    forall p, e | p in r && !IsMouseName(p.0)
      ensures Least(kb, e).Finite? && Least(kb, e).v <= EdgeOf(p.1, e) <= Greatest(kb, e)
    {
      assert p in kb;
      var i :| 0 <= i < |kb| && kb[i] == p;
    }
  }

  /** Facts about a table whose keyboard entries lie between the given bounds, touching each. */
  lemma BoxOf(r: Rects, layout: Profile, left: int, top: int, right: int, bottom: int)
    requires forall p :: p in r && !IsMouseName(p.0) ==>
      left <= p.1.x && top <= p.1.y && p.1.x + p.1.w <= right && p.1.y + p.1.h <= bottom
    requires exists p :: p in r && !IsMouseName(p.0) && p.1.x == left
    requires exists p :: p in r && !IsMouseName(p.0) && p.1.y == top
    requires exists p :: p in r && !IsMouseName(p.0) && p.1.x + p.1.w == right
    requires exists p :: p in r && !IsMouseName(p.0) && p.1.y + p.1.h == bottom
    requires Margin <= right
    ensures !ShowsMouse(layout) ==>
      BoundingBox(r, layout) == Box(Finite(left - Margin), Finite(top - Margin), right + Margin, bottom + Margin)
    ensures ShowsMouse(layout) ==>
      BoundingBox(r, layout) == Box(
        Finite(if left < MouseX then left - Margin else MouseX - Margin),
        Finite(if top < MouseY then top - Margin else MouseY - Margin),
        Max(right, MouseX + MouseW) + Margin, Max(bottom, MouseY + MouseH) + Margin)
  {
    var kb := KeyboardPart(r);
    var pl :| pl in r && !IsMouseName(pl.0) && pl.1.x == left;
    var pt :| pt in r && !IsMouseName(pt.0) && pt.1.y == top;
    var pr :| pr in r && !IsMouseName(pr.0) && pr.1.x + pr.1.w == right;
    var pb :| pb in r && !IsMouseName(pb.0) && pb.1.y + pb.1.h == bottom;
    KeyboardExtremes(r, kb, left, top, right, bottom, pl, pt, pr, pb);
    BoxFromExtremes(r, layout, left, top, right, bottom);
  }

  lemma KeyboardExtremes(r: Rects, kb: Rects, left: int, top: int, right: int, bottom: int,
                         pl: (string, Rect), pt: (string, Rect), pr: (string, Rect), pb: (string, Rect))
    requires kb == KeyboardPart(r)
    requires forall p :: p in r && !IsMouseName(p.0) ==>
      left <= p.1.x && top <= p.1.y && p.1.x + p.1.w <= right && p.1.y + p.1.h <= bottom
    requires pl in r && !IsMouseName(pl.0) && pl.1.x == left
    requires pt in r && !IsMouseName(pt.0) && pt.1.y == top
    requires pr in r && !IsMouseName(pr.0) && pr.1.x + pr.1.w == right
    requires pb in r && !IsMouseName(pb.0) && pb.1.y + pb.1.h == bottom
    ensures Least(kb, Left) == Finite(left) && Least(kb, Top) == Finite(top)
    ensures Greatest(kb, Right) == right && Greatest(kb, Bottom) == bottom
  {
    assert pl in kb && pt in kb && pr in kb && pb in kb;
    forall i | 0 <= i < |kb|
      ensures left <= kb[i].1.x && top <= kb[i].1.y && kb[i].1.x + kb[i].1.w <= right && kb[i].1.y + kb[i].1.h <= bottom
    {
      assert kb[i] in kb;
    }
    LeastIs(kb, Left, left, pl);
    LeastIs(kb, Top, top, pt);
    GreatestIs(kb, Right, right, pr);
    GreatestIs(kb, Bottom, bottom, pb);
  }

  lemma BoxFromExtremes(r: Rects, layout: Profile, left: int, top: int, right: int, bottom: int)
    requires Least(KeyboardPart(r), Left) == Finite(left) && Least(KeyboardPart(r), Top) == Finite(top)
    requires Greatest(KeyboardPart(r), Right) == right && Greatest(KeyboardPart(r), Bottom) == bottom
    ensures !ShowsMouse(layout) ==>
      BoundingBox(r, layout) == Box(Finite(left - Margin), Finite(top - Margin), right + Margin, bottom + Margin)
    ensures ShowsMouse(layout) ==>
      BoundingBox(r, layout) == Box(
        Finite(if left < MouseX then left - Margin else MouseX - Margin),
        Finite(if top < MouseY then top - Margin else MouseY - Margin),
        Max(right, MouseX + MouseW) + Margin, Max(bottom, MouseY + MouseH) + Margin)
  {
  }

  lemma LeastIs(r: Rects, e: Edge, v: int, w: (string, Rect))
    requires forall i :: 0 <= i < |r| ==> v <= EdgeOf(r[i].1, e)
    requires w in r && EdgeOf(w.1, e) == v
    ensures Least(r, e) == Finite(v)
  {
    LeastBounds(r, e);
    var i :| 0 <= i < |r| && r[i] == w;
  }

  lemma GreatestIs(r: Rects, e: Edge, v: int, w: (string, Rect))
    requires forall i :: 0 <= i < |r| ==> EdgeOf(r[i].1, e) <= v
    requires w in r && EdgeOf(w.1, e) == v
    ensures Greatest(r, e) == v
  {
    GreatestBounds(r, e);
    var i :| 0 <= i < |r| && r[i] == w;
  }

  /** The keyboard entries of the full table are exactly the keyboard rows. */
  lemma KeyboardEntries()
    ensures forall p :: p in AllRects() && !IsMouseName(p.0) <==> p in Keyboard()
  {
    KeyboardNamesShort();
    MouseNames();
    forall p | p in AllRects()
      ensures !IsMouseName(p.0) <==> p in Keyboard()
    {
      if p in Keyboard() {
        var i :| 0 <= i < |Keyboard()| && Keyboard()[i] == p;
      } else {
        assert p in MouseButtons();
        var i :| 0 <= i < |MouseButtons()| && MouseButtons()[i] == p;
      }
    }
  }

  lemma MouseEntries()
    ensures forall p :: p in MouseButtons() ==> IsMouseName(p.0)
  {
    MouseNames();
    forall p | p in MouseButtons()
      ensures IsMouseName(p.0)
    {
      var i :| 0 <= i < |MouseButtons()| && MouseButtons()[i] == p;
    }
  }

  lemma KeyboardBounds()
    ensures forall p :: p in Keyboard() ==>
      && 40 <= p.1.x && 40 <= p.1.y && p.1.x + p.1.w <= 557 && p.1.y + p.1.h <= 391
      && !IsMouseName(p.0)
    ensures Keyboard()[0] in Keyboard() && Keyboard()[0].1.x == 40 && Keyboard()[0].1.y == 40
    ensures Keyboard()[23] in Keyboard() && Keyboard()[23].1.x + Keyboard()[23].1.w == 557
    ensures Keyboard()[24] in Keyboard() && Keyboard()[24].1.y + Keyboard()[24].1.h == 391
  {
    KeyboardExtent();
    KeyboardNamesShort();
    forall p | p in Keyboard()
      ensures 40 <= p.1.x && 40 <= p.1.y && p.1.x + p.1.w <= 557 && p.1.y + p.1.h <= 391
      ensures !IsMouseName(p.0)
    {
      var i :| 0 <= i < |Keyboard()| && Keyboard()[i] == p;
    }
  }

  /** The crop of a table whose keyboard entries are exactly the keyboard rows. */
  lemma KeyboardCrop(r: Rects, layout: Profile)
    requires forall p :: p in r && !IsMouseName(p.0) <==> p in Keyboard()
    ensures ShowsMouse(layout) ==> BoundingBox(r, layout) == Box(Finite(26), Finite(26), 734, 405)
    ensures !ShowsMouse(layout) ==> BoundingBox(r, layout) == Box(Finite(26), Finite(26), 571, 405)
  {
    KeyboardBounds();
    BoxOf(r, layout, 40, 40, 557, 391);
  }

  /** The crop of a table with mouse buttons only: the mouse body and the margin. */
  lemma MouseBodyCrop(r: Rects)
    requires forall p :: p in r ==> IsMouseName(p.0)
    ensures BoundingBox(r, MouseOnly) == Box(Finite(576), Finite(81), 734, 324)
  {
    var kb := KeyboardPart(r);
    assert forall i :: 0 <= i < |kb| ==> kb[i] in kb;
  }

  /** The full board is cropped to x 26..734 and y 26..405. */
  lemma FullCrop()
    ensures BoundingBox(KeyRects(FullBoard), FullBoard) == Box(Finite(26), Finite(26), 734, 405)
  {
    KeyboardEntries();
    KeyboardCrop(AllRects(), FullBoard);
  }

  /** The WASD layout is cropped to x 26..571 and y 26..405: the mouse body is left out. */
  lemma WasdCrop()
    ensures BoundingBox(KeyRects(WasdOnly), WasdOnly) == Box(Finite(26), Finite(26), 571, 405)
  {
    WasdEntries();
    KeyboardCrop(KeyRects(WasdOnly), WasdOnly);
  }

  lemma WasdEntries()
    ensures forall p :: p in KeyRects(WasdOnly) && !IsMouseName(p.0) <==> p in Keyboard()
  {
    WasdSelection();
    KeyboardBounds();
  }

  /** The mouse layout has no keyboard entries, so its crop is the mouse body plus the margin. */
  lemma MouseCrop()
    ensures BoundingBox(KeyRects(MouseOnly), MouseOnly) == Box(Finite(576), Finite(81), 734, 324)
  {
    MouseSelection();
    MouseEntries();
    MouseBodyCrop(MouseButtons());
  }

  /** Every layout's crop box lies on the canvas and has a positive size. */
  lemma CropOnCanvas(layout: Profile)
    ensures var b := BoundingBox(KeyRects(layout), layout);
      && b.x0.Finite? && b.y0.Finite?
      && 0 <= b.x0.v < b.x1 <= CanvasW && 0 <= b.y0.v < b.y1 <= CanvasH
  {
    match layout
    case FullBoard => FullCrop();
    case WasdOnly => WasdCrop();
    case MouseOnly => MouseCrop();
  }

  /** The crop box of a layout's generated images. */
  function Crop(layout: Profile): Box {
    BoundingBox(KeyRects(layout), layout)
  }

  /**
   The side buttons stick out four pixels to the left of the mouse layout's crop
   box, which is taken from the mouse body alone, while the main buttons lie inside.
   */
  lemma SideButtonsCut()
    ensures MouseButtons()[2].0 == "mouse_5" && MouseButtons()[3].0 == "mouse_4"
    ensures Crop(MouseOnly).x0.Finite?
    ensures MouseButtons()[2].1.x < Crop(MouseOnly).x0.v && MouseButtons()[3].1.x < Crop(MouseOnly).x0.v
    ensures Crop(MouseOnly).x0.v < MouseButtons()[0].1.x && Crop(MouseOnly).x0.v < MouseButtons()[1].1.x
  {
    MouseCrop();
  }

  /** On the full board every mouse button lies inside the crop box. */
  lemma MouseButtonsInsideFullCrop()
    ensures forall i :: 0 <= i < |MouseButtons()| ==> Inside(MouseButtons()[i].1, Crop(FullBoard))
  {
    FullCrop();
    MouseButtonsInside(Crop(FullBoard));
  }

  lemma MouseButtonsInside(b: Box)
    requires b == Box(Finite(26), Finite(26), 734, 405)
    ensures forall i :: 0 <= i < |MouseButtons()| ==> Inside(MouseButtons()[i].1, b)
  {
  }

  predicate Inside(q: Rect, b: Box) {
    b.x0.Finite? && b.y0.Finite? && b.x0.v <= q.x && q.x + q.w <= b.x1 && b.y0.v <= q.y && q.y + q.h <= b.y1
  }

  // ---- the size marker ----

  const MarkerPrefix := "DIMENSIONS_"

  /** `f"{hi - lo}"` for one side of the crop; an infinite low edge prints as Python's `-inf`. */
  function SideText(lo: Bound, hi: int): string {
    if lo.Infinity? then "-inf" else IntToString(hi - lo.v)
  }

  /** The name of the empty file recording the crop size, `DIMENSIONS_<w>x<h>`. */
  function MarkerName(b: Box): string {
    MarkerPrefix + SideText(b.x0, b.x1) + "x" + SideText(b.y0, b.y1)
  }

  function IndexOf(s: string, c: char): (r: Option<nat>)
    ensures r.Some? ==> r.value < |s| && s[r.value] == c && forall j :: 0 <= j < r.value ==> s[j] != c
    ensures r.None? ==> forall j :: 0 <= j < |s| ==> s[j] != c
  {
    if s == [] then None
    else if s[0] == c then Some(0)
    else
      match IndexOf(s[1..], c)
      case None => None
      case Some(i) => Some(i + 1)
  }

  /** Reads the crop size back from a marker name: the digits before and after the first `x`. */
  function ParseMarker(name: string): Option<(nat, nat)> {
    if !IsPrefix(MarkerPrefix, name) then None
    else
      var body := name[|MarkerPrefix|..];
      match IndexOf(body, 'x')
      case None => None
      case Some(i) =>
        var w, h := body[..i], body[i + 1..];
        if IsDigits(w) && IsDigits(h) then Some((ParseNat(w), ParseNat(h))) else None
  }

  /** The marker name of a finite box records its width and height, and nothing else. */
  lemma MarkerRoundTrip(b: Box)
    requires b.x0.Finite? && b.y0.Finite? && b.x0.v <= b.x1 && b.y0.v <= b.y1
    ensures ParseMarker(MarkerName(b)) == Some((b.x1 - b.x0.v, b.y1 - b.y0.v))
  {
    var w, h := b.x1 - b.x0.v, b.y1 - b.y0.v;
    var ws, hs := NatToString(w), NatToString(h);
    var name := MarkerName(b);
    assert name == MarkerPrefix + ws + "x" + hs;
    var body := name[|MarkerPrefix|..];
    assert name[..|MarkerPrefix|] == MarkerPrefix;
    assert body == ws + "x" + hs;
    assert body[|ws|] == 'x';
    assert forall j :: 0 <= j < |ws| ==> body[j] == ws[j];
    var i := IndexOf(body, 'x');
    assert i == Some(|ws|);
    assert body[..|ws|] == ws;
    assert body[|ws| + 1..] == hs;
    ParseNatToString(w);
    ParseNatToString(h);
  }

  /** Boxes of different sizes get different marker names. */
  lemma MarkerNamesDiffer(a: Box, b: Box)
    requires a.x0.Finite? && a.y0.Finite? && a.x0.v <= a.x1 && a.y0.v <= a.y1
    requires b.x0.Finite? && b.y0.Finite? && b.x0.v <= b.x1 && b.y0.v <= b.y1
    requires a.x1 - a.x0.v != b.x1 - b.x0.v || a.y1 - a.y0.v != b.y1 - b.y0.v
    ensures MarkerName(a) != MarkerName(b)
  {
    MarkerRoundTrip(a);
    MarkerRoundTrip(b);
  }

  /** The full board's marker is `DIMENSIONS_708x379`. */
  lemma FullMarker()
    ensures MarkerName(Crop(FullBoard)) == "DIMENSIONS_708x379"
  {
    FullCrop();
    FullMarkerOf(Crop(FullBoard));
  }

  lemma FullMarkerOf(b: Box)
    requires b == Box(Finite(26), Finite(26), 734, 405)
    ensures MarkerName(b) == "DIMENSIONS_708x379"
  {
    assert NatToString(708) == "708" && NatToString(379) == "379";
  }

  /** The WASD layout's marker is `DIMENSIONS_545x379`. */
  lemma WasdMarker()
    ensures MarkerName(Crop(WasdOnly)) == "DIMENSIONS_545x379"
  {
    WasdCrop();
    WasdMarkerOf(Crop(WasdOnly));
  }

  lemma WasdMarkerOf(b: Box)
    requires b == Box(Finite(26), Finite(26), 571, 405)
    ensures MarkerName(b) == "DIMENSIONS_545x379"
  {
    assert NatToString(545) == "545" && NatToString(379) == "379";
  }

  /** The mouse layout's marker is `DIMENSIONS_158x243`. */
  lemma MouseMarker()
    ensures MarkerName(Crop(MouseOnly)) == "DIMENSIONS_158x243"
  {
    MouseCrop();
    MouseMarkerOf(Crop(MouseOnly));
  }

  lemma MouseMarkerOf(b: Box)
    requires b == Box(Finite(576), Finite(81), 734, 324)
    ensures MarkerName(b) == "DIMENSIONS_158x243"
  {
    assert NatToString(158) == "158" && NatToString(243) == "243";
  }

  // ---- where the files go ----

  /** `os.path.join(a, b)` with the POSIX separator. */
  function Join(a: string, b: string): string {
    if b != [] && b[0] == '/' then b
    else if a == [] || a[|a| - 1] == '/' then a + b
    else a + "/" + b
  }

  /** The directory the generator writes a layout's files to, below the chosen output directory. */
  function OutputDir(out: string, layout: Profile): string {
    match layout
    case FullBoard => out
    case WasdOnly => Join(Join(out, "layouts"), "wasd")
    case MouseOnly => Join(Join(out, "layouts"), "mouse")
  }

  /**
   A file the generator writes for a layout lands where the plugin looks for it
   under the same profile: the output directory plus the profile's sub-directory.
   */
  lemma OutputDirMatchesLoader(out: string, profile: int, f: string)
    requires f == [] || f[0] != '/'
    ensures Join(OutputDir(out, ProfileOf(profile)), f) == Join(out, SubDir(profile) + f)
  {
    match ProfileOf(profile)
    case FullBoard =>
    case WasdOnly => JoinLayouts(out, "wasd", f);
    case MouseOnly => JoinLayouts(out, "mouse", f);
  }

  lemma JoinLayouts(out: string, tag: string, f: string)
    requires tag != [] && tag[0] != '/' && tag[|tag| - 1] != '/'
    requires f == [] || f[0] != '/'
    ensures Join(Join(Join(out, "layouts"), tag), f) == Join(out, "layouts/" + tag + "/" + f)
  {
    var x := if out == [] || out[|out| - 1] == '/' then out else out + "/";
    var base := Join(out, "layouts");
    assert base == x + "layouts";
    var dir := Join(base, tag);
    assert dir == x + "layouts" + "/" + tag;
    assert Join(dir, f) == x + "layouts" + "/" + tag + "/" + f;
    var rest := "layouts/" + tag + "/" + f;
    assert "layouts/" == "layouts" + "/";
    Regroup(x, "layouts", "/", tag, f);
    assert Join(out, rest) == x + rest;
  }

  lemma Regroup(x: string, l: string, s: string, t: string, f: string)
    ensures x + l + s + t + s + f == x + (l + s + t + s + f)
  {
  }

  /** A file the generator writes: a cropped image or the empty size marker. */
  datatype Output = Image(path: Path, crop: Box) | Marker(path: Path)

  /**
   What one run writes for a layout: a sprite per key (`generate_key_sprites`),
   the size marker, then the design layer, the outline layer and the combined
   reference image (`generate_keyboard_template`). Both generators compute the
   same key table and crop box.
   */
  function Outputs(out: string, layout: Profile): seq<Output> {
    var rects := KeyRects(layout);
    WrittenFiles(OutputDir(out, layout), rects, BoundingBox(rects, layout))
  }

  /** The files written to `dir` for the key table `rects` cropped to `crop`. */
  function WrittenFiles(dir: string, rects: Rects, crop: Box): (o: seq<Output>)
    ensures |o| == |rects| + 4
    ensures forall i :: 0 <= i < |o| && o[i].Image? ==> o[i].crop == crop
    ensures forall i :: 0 <= i < |rects| ==> o[i] == Image(Join(dir, rects[i].0 + "_pressed.png"), crop)
    ensures o[|rects|] == Marker(Join(dir, MarkerName(crop)))
    ensures o[|rects| + 1].path == Join(dir, "keyboard_bg.png")
    ensures o[|rects| + 2].path == Join(dir, "keyboard_outlines.png")
    ensures o[|rects| + 3].path == Join(dir, "keyboard_template.png")
  {
    seq(|rects|, i requires 0 <= i < |rects| => Image(Join(dir, rects[i].0 + "_pressed.png"), crop))
      + [Marker(Join(dir, MarkerName(crop)))]
      + [ Image(Join(dir, "keyboard_bg.png"), crop),
          Image(Join(dir, "keyboard_outlines.png"), crop),
          Image(Join(dir, "keyboard_template.png"), crop) ]
  }

  /** Every key a layout draws is one of the keys the plugin tracks. */
  lemma LayoutKeysTracked(layout: Profile)
    ensures forall i :: 0 <= i < |KeyRects(layout)| ==> KeyRects(layout)[i].0 in KeyNameSet
  {
    AllNamesTracked();
    SubTableNames(KeyRects(layout), AllRects(), KeyNameSet);
  }

  lemma AllNamesTracked()
    ensures forall j :: 0 <= j < |AllRects()| ==> AllRects()[j].0 in KeyNameSet
  {
    AllRectsNames();
  }

  lemma SubTableNames(sub: Rects, all: Rects, names: set<string>)
    requires forall p :: p in sub ==> p in all
    requires forall j :: 0 <= j < |all| ==> all[j].0 in names
    ensures forall i :: 0 <= i < |sub| ==> sub[i].0 in names
  {
    forall i | 0 <= i < |sub|
      ensures sub[i].0 in names
    {
      assert sub[i] in all;
    }
  }

  /** Every image one run writes, sprites and template layers alike, is cut to the same crop box. */
  lemma GeneratedImagesShareCrop(out: string, layout: Profile)
    ensures |Outputs(out, layout)| == |KeyRects(layout)| + 4
    ensures forall i :: 0 <= i < |Outputs(out, layout)| && Outputs(out, layout)[i].Image? ==>
      Outputs(out, layout)[i].crop == Crop(layout)
  {
  }

  /**
   The sprite a run writes for each key of the profile's layout lands at the path
   the plugin reads that key's sprite from, and the key is one the plugin tracks.
   */
  lemma GeneratedSpritesWhereLoaded(out: string, profile: int)
    ensures var layout := ProfileOf(profile);
      forall i :: 0 <= i < |KeyRects(layout)| ==>
        && KeyRects(layout)[i].0 in KeyNameSet
        && Outputs(out, layout)[i].path == Join(out, SubDir(profile) + (KeyRects(layout)[i].0 + SpriteSuffix))
  {
    var layout := ProfileOf(profile);
    LayoutKeysTracked(layout);
    forall i | 0 <= i < |KeyRects(layout)|
      ensures Outputs(out, layout)[i].path == Join(out, SubDir(profile) + (KeyRects(layout)[i].0 + SpriteSuffix))
    {
      var name := KeyRects(layout)[i].0 + SpriteSuffix;
      OutputDirMatchesLoader(out, profile, name);
    }
  }

  /**
   The design, outline and combined layers land in the output directory plus the
   profile's sub-directory; the combined template is written beside the other two.
   */
  lemma GeneratedLayersWhereLoaded(out: string, profile: int)
    ensures var o := Outputs(out, ProfileOf(profile));
      && o[|o| - 3].path == Join(out, SubDir(profile) + DefaultDesign)
      && o[|o| - 2].path == Join(out, SubDir(profile) + OutlinesName)
      && o[|o| - 1].path == Join(out, SubDir(profile) + TemplateName)
  {
    OutputDirMatchesLoader(out, profile, DefaultDesign);
    OutputDirMatchesLoader(out, profile, OutlinesName);
    OutputDirMatchesLoader(out, profile, TemplateName);
  }

  /** Joining the plugin's data directory (without its slash) to a relative name gives the path below `Root`. */
  lemma JoinRoot(out: string, f: string)
    requires out + "/" == Root
    requires f != [] && f[0] != '/'
    ensures Join(out, f) == Root + f
  {
    assert out[|out| - 1] == Root[|Root| - 2];
  }

  /** A name below the profile's sub-directory, joined to the data directory, is the plugin's template path. */
  lemma JoinTemplatePath(out: string, profile: int, f: string)
    requires out + "/" == Root
    requires f != [] && f[0] != '/'
    ensures Join(out, SubDir(profile) + f) == TemplatePath(profile, f)
  {
    JoinRoot(out, SubDir(profile) + f);
  }

  /**
   Generated into the plugin's data directory, the design and outline layers land
   exactly where the plugin loads them; the combined template lands beside them
   and is never the design the plugin loads.
   */
  lemma LayersInDataFolder(out: string, profile: int, relativePath: string, config: map<string, string>)
    requires out + "/" == Root
    ensures var o := Outputs(out, ProfileOf(profile));
      && o[|o| - 3].path == TemplatePath(profile, DefaultDesign)
      && o[|o| - 2].path == TemplatePath(profile, OutlinesName)
      && o[|o| - 1].path == TemplatePath(profile, TemplateName)
      && o[|o| - 1].path != OverlayPath(relativePath, profile, config)
  {
    GeneratedLayersWhereLoaded(out, profile);
    JoinTemplatePath(out, profile, DefaultDesign);
    JoinTemplatePath(out, profile, OutlinesName);
    JoinTemplatePath(out, profile, TemplateName);
    var design := OverlayPath(relativePath, profile, config);
    assert design[|ProfileDir(profile)|..] != TemplateName;
    assert TemplatePath(profile, TemplateName)[|ProfileDir(profile)|..] == TemplateName;
  }

  /** Sprites written below `out` plus the profile's sub-directory are at the plugin's template paths. */
  lemma SpritePathsAreTemplatePaths(o: seq<Output>, rects: Rects, out: string, profile: int)
    requires out + "/" == Root
    requires |rects| <= |o|
    requires forall i :: 0 <= i < |rects| ==> rects[i].0 == [] || rects[i].0[0] != '/'
    requires forall i :: 0 <= i < |rects| ==> o[i].path == Join(out, SubDir(profile) + (rects[i].0 + SpriteSuffix))
    ensures forall i :: 0 <= i < |rects| ==> o[i].path == TemplatePath(profile, rects[i].0 + SpriteSuffix)
  {
    forall i | 0 <= i < |rects|
      ensures o[i].path == TemplatePath(profile, rects[i].0 + SpriteSuffix)
    {
      JoinTemplatePath(out, profile, rects[i].0 + SpriteSuffix);
    }
  }

  /** No tracked key name is empty or starts with a slash, so joining it never restarts the path. */
  lemma KeyNamesRelative()
    ensures forall k :: k in KeyNameSet ==> k != [] && k[0] != '/'
  {
    assert forall j :: 0 <= j < |KeyNames| ==> KeyNames[j] != [] && KeyNames[j][0] != '/';
  }

  lemma SpriteNamesRelative(rects: Rects)
    requires forall i :: 0 <= i < |rects| ==> rects[i].0 in KeyNameSet
    ensures forall i :: 0 <= i < |rects| ==> rects[i].0 == [] || rects[i].0[0] != '/'
  {
    KeyNamesRelative();
  }

  /** Generated into the plugin's data directory, every sprite lands where the plugin loads it. */
  lemma SpritesInDataFolder(out: string, profile: int)
    requires out + "/" == Root
    ensures var layout := ProfileOf(profile);
      forall i :: 0 <= i < |KeyRects(layout)| ==>
        Outputs(out, layout)[i].path == TemplatePath(profile, KeyRects(layout)[i].0 + SpriteSuffix)
  {
    var layout := ProfileOf(profile);
    var rects := KeyRects(layout);
    GeneratedSpritesWhereLoaded(out, profile);
    LayoutKeysTracked(layout);
    SpriteNamesRelative(rects);
    SpritePathsAreTemplatePaths(Outputs(out, layout), rects, out, profile);
  }

  /** The size marker sits in the same directory, named after the layout's crop box. */
  lemma GeneratedMarkerBesideLayers(out: string, profile: int)
    ensures var o := Outputs(out, ProfileOf(profile));
      o[|o| - 4] == Marker(Join(out, SubDir(profile) + MarkerName(Crop(ProfileOf(profile)))))
  {
    MarkerStartsWithLetter(Crop(ProfileOf(profile)));
    OutputDirMatchesLoader(out, profile, MarkerName(Crop(ProfileOf(profile))));
  }

  lemma MarkerStartsWithLetter(b: Box)
    ensures MarkerName(b) != [] && MarkerName(b)[0] == 'D'
  {
  }
}
