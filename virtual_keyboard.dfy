/**
  The on-screen keyboard's dwell selection: a list of key buttons with screen
  rectangles, the button currently under the gaze point, and a progress value
  that a periodic tick advances until the key fires.
 */
module VirtualKeyboard {
  import opened Wrappers

  /** The key labels, row by row. */
  const KeyLayout: seq<seq<string>> := [
    ["1", "2", "3", "4", "5", "6", "7", "8", "9", "0",
     "%", "^", "&", "*", "(", ")", "`"],
    ["q", "w", "e", "r", "t", "y", "u", "i", "o", "p",
     "[", "]", "\\", "+", "BACKSPACE"],
    ["CAPSLOCK",
     "a", "s", "d", "f", "g", "h", "j", "k", "l",
     ";", "'", ":", "\"", "ENTER"],
    ["z", "x", "c", "v", "b", "n", "m",
     ",", ".", "<", ">", "/", "?", "$", "#"],
    ["(", ")", "{", "}", "_", "|", "~", "TAB", "SPACE", "DEL"],
    ["!", "@", "#", "$", "%", "^", "&", "*", "-", "+", "=", "[", "]", "{", "}", "|", "\\"],
    ["`", "~", ";", ":", "'", "\"", ",", ".", "<", ">", "/", "?"]
  ]

  /** The tick adds this many milliseconds of dwell. */
  const TickMs := 50

  /** The dwell used when neither the caller nor the settings give one. */
  const DefaultDwellMs := 900

  /** A key button and its last measured screen rectangle. */
  datatype Button = Button(key: string, x: int, y: int, w: int, h: int)

  /** A screen rectangle as the widget toolkit reports it. */
  datatype Rect = Rect(x: int, y: int, w: int, h: int)

  /** The key labels of `rows`, row after row. */
  function Flatten(rows: seq<seq<string>>): (r: seq<string>)
    ensures forall i, j :: 0 <= i < |rows| && 0 <= j < |rows[i]| ==> rows[i][j] in r
    ensures forall k :: k in r ==> exists i :: 0 <= i < |rows| && k in rows[i]
  {
    if rows == [] then [] else rows[0] + Flatten(rows[1..])
  }

  /** The buttons as first created: one per layout key, in layout order, not
      yet measured. */
  function InitialButtons(): (r: seq<Button>)
    ensures |r| == |Flatten(KeyLayout)|
    ensures forall i :: 0 <= i < |r| ==>
              r[i].key == Flatten(KeyLayout)[i] && r[i].x == 0 && r[i].y == 0 && r[i].w == 0 && r[i].h == 0
  {
    Unmeasured(Flatten(KeyLayout))
  }

  /** The layout has 101 keys, so there are 101 buttons. */
  lemma LayoutHas101Keys()
    ensures |Flatten(KeyLayout)| == 101
    ensures |InitialButtons()| == 101
  {
    LayoutTotalLength();
    FlattenLength(KeyLayout);
  }

  lemma LayoutTotalLength()
    ensures TotalLength(KeyLayout) == 101
  {
    var r := KeyLayout;
    assert |r[0]| == 17 && |r[1]| == 15 && |r[2]| == 15 && |r[3]| == 15;
    assert |r[4]| == 10 && |r[5]| == 17 && |r[6]| == 12;
    assert TotalLength(r[7..]) == 0;
    assert TotalLength(r[6..]) == 12 by { assert r[6..][1..] == r[7..]; }
    assert TotalLength(r[5..]) == 29 by { assert r[5..][1..] == r[6..]; }
    assert TotalLength(r[4..]) == 39 by { assert r[4..][1..] == r[5..]; }
    assert TotalLength(r[3..]) == 54 by { assert r[3..][1..] == r[4..]; }
    assert TotalLength(r[2..]) == 69 by { assert r[2..][1..] == r[3..]; }
    assert TotalLength(r[1..]) == 84 by { assert r[1..][1..] == r[2..]; }
    assert r[0..] == r;
  }

  function TotalLength(rows: seq<seq<string>>): nat {
    if rows == [] then 0 else |rows[0]| + TotalLength(rows[1..])
  }

  lemma {:induction false} FlattenLength(rows: seq<seq<string>>)
    ensures |Flatten(rows)| == TotalLength(rows)
  {
    if rows != [] {
      FlattenLength(rows[1..]);
    }
  }

  /** One unmeasured button per key, in order. */
  function Unmeasured(keys: seq<string>): (r: seq<Button>)
    ensures |r| == |keys|
    ensures forall i :: 0 <= i < |r| ==> r[i] == Button(keys[i], 0, 0, 0, 0)
  {
    seq(|keys|, i requires 0 <= i < |keys| => Button(keys[i], 0, 0, 0, 0))
  }

  /** The dwell in milliseconds: the explicit argument if given, otherwise the
      setting unless it is missing or zero, otherwise 900. */
  function InitialDwell(dwellMs: Option<int>, setting: Option<int>): (d: int)
    ensures dwellMs.Some? ==> d == dwellMs.value
    ensures dwellMs.None? && setting.Some? && setting.value != 0 ==> d == setting.value
    ensures dwellMs.None? && (setting.None? || setting.value == 0) ==> d == DefaultDwellMs
  {
    match dwellMs
    case Some(ms) => ms
    case None =>
      match setting
      case Some(v) => if v != 0 then v else DefaultDwellMs
      case None => DefaultDwellMs
  }

  /** The closed rectangle of `b` contains the point. */
  predicate Covers(b: Button, sx: int, sy: int) {
    b.x <= sx <= b.x + b.w && b.y <= sy <= b.y + b.h
  }

  /** `hit` names the first button in list order that covers the point, or
      no button when none covers it. */
  predicate IsFirstHit(buttons: seq<Button>, sx: int, sy: int, hit: Option<nat>) {
    match hit
    case Some(i) =>
      i < |buttons| && Covers(buttons[i], sx, sy) &&
      forall j :: 0 <= j < i ==> !Covers(buttons[j], sx, sy)
    case None =>
      forall j :: 0 <= j < |buttons| ==> !Covers(buttons[j], sx, sy)
  }

  /** At most one answer satisfies `IsFirstHit`. */
  lemma FirstHitUnique(buttons: seq<Button>, sx: int, sy: int, h1: Option<nat>, h2: Option<nat>)
    requires IsFirstHit(buttons, sx, sy, h1) && IsFirstHit(buttons, sx, sy, h2)
    ensures h1 == h2
  {
  }

  /** The hit test of `set_hover_by_coords`: scan the buttons in order and stop
      at the first whose rectangle contains the point. */
  method HitTest(buttons: seq<Button>, sx: int, sy: int) returns (hit: Option<nat>)
    ensures IsFirstHit(buttons, sx, sy, hit)
  {
    hit := None;
    var i := 0;
    while i < |buttons|
      invariant 0 <= i <= |buttons|
      invariant hit == None
      invariant forall j :: 0 <= j < i ==> !Covers(buttons[j], sx, sy)
    {
      if Covers(buttons[i], sx, sy) {
        hit := Some(i);
        break;
      }
      i := i + 1;
    }
  }

  function Max(a: int, b: int): int {
    if a < b then b else a
  }

  /** The progress one tick adds: 50 ms over the dwell, with the dwell taken
      to be at least 1 ms so that the step stays finite. */
  function StepSize(dwell: int): (s: real)
    ensures 0.0 < s <= 50.0
  {
    (TickMs as real) / (Max(1, dwell) as real)
  }

  /** What one tick does to the progress, and which key (if any) it fires. */
  datatype TickResult = TickResult(progress: real, fired: Option<string>)

  /** One tick, given the key of the hovered button (if any). */
  function TickSpec(hovered: Option<string>, progress: real, dwell: int): TickResult
  {
    match hovered
    case None => TickResult(0.0, None)
    case Some(k) =>
      var p := progress + StepSize(dwell);
      if p >= 1.0 then TickResult(0.0, Some(k)) else TickResult(p, None)
  }

  /** A tick keeps the progress in [0, 1), fires only the hovered key, and
      fires exactly when the step carries the progress to 1 or beyond. */
  lemma TickKeepsProgressInRange(hovered: Option<string>, progress: real, dwell: int)
    requires 0.0 <= progress < 1.0
    ensures 0.0 <= TickSpec(hovered, progress, dwell).progress < 1.0
    ensures TickSpec(hovered, progress, dwell).fired.Some? <==>
              hovered.Some? && progress + StepSize(dwell) >= 1.0
    ensures TickSpec(hovered, progress, dwell).fired.Some? ==>
              TickSpec(hovered, progress, dwell).fired == hovered &&
              TickSpec(hovered, progress, dwell).progress == 0.0
  {
  }

  /** The number of ticks between activations under continuous hover:
      ceil(max(1, dwell) / 50). */
  function Period(dwell: int): (n: nat)
    ensures n >= 1
    ensures TickMs * (n - 1) < Max(1, dwell) <= TickMs * n
  {
    (Max(1, dwell) + TickMs - 1) / TickMs
  }

  /** Progress and number of activations after `n` ticks of continuous
      hover over key `k`, starting from progress 0. */
  function Hold(k: string, n: nat, dwell: int): (real, nat)
  {
    if n == 0 then (0.0, 0)
    else
      var prev := Hold(k, n - 1, dwell);
      var r := TickSpec(Some(k), prev.0, dwell);
      (r.progress, prev.1 + if r.fired.Some? then 1 else 0)
  }

  lemma MulNonNegative(a: real, b: real)
    requires a >= 0.0 && b >= 0.0
    ensures a * b >= 0.0
  {
  }

  lemma DivAtLeastOne(x: int, d: int)
    requires d > 0
    ensures (x as real) / (d as real) >= 1.0 <==> x >= d
  {
    var q := (x as real) / (d as real);
    assert q * (d as real) == x as real;
    if q >= 1.0 {
      MulNonNegative(q - 1.0, d as real);
    } else {
      MulNonNegative(1.0 - q, d as real);
    }
  }

  /** The progress after `m` steps of hover. */
  function Progress(m: nat, dwell: int): real
  {
    (m as real) * StepSize(dwell)
  }

  /** `m` ticks' worth of progress reaches 1 exactly from the `Period`-th tick on. */
  lemma StepsReachOne(m: nat, dwell: int)
    ensures Progress(m, dwell) >= 1.0 <==> m >= Period(dwell)
  {
    var d := Max(1, dwell);
    assert Progress(m, dwell) == ((TickMs * m) as real) / (d as real);
    DivAtLeastOne(TickMs * m, d);
    if m >= Period(dwell) {
      assert TickMs * m >= TickMs * Period(dwell);
    } else {
      assert TickMs * m <= TickMs * (Period(dwell) - 1);
    }
  }

  lemma AddStep(m: nat, s: real)
    ensures (m as real) * s + s == ((m + 1) as real) * s
  {
  }

  /** A tick of hover after `m` steps of progress either adds one step or, on
      the `Period`-th step, fires the key and restarts the progress at 0. */
  lemma TickAfterSteps(k: string, m: nat, dwell: int)
    requires m < Period(dwell)
    ensures TickSpec(Some(k), Progress(m, dwell), dwell) ==
              if m + 1 < Period(dwell) then TickResult(Progress(m + 1, dwell), None)
              else TickResult(0.0, Some(k))
  {
    AddStep(m, StepSize(dwell));
    StepsReachOne(m + 1, dwell);
  }

  /** A tick of hover that does not complete the period adds one step. */
  lemma HoldStepWithin(k: string, n: nat, r: nat, c: nat, dwell: int)
    requires n >= 1 && 1 <= r < Period(dwell)
    requires Hold(k, n - 1, dwell) == (Progress(r - 1, dwell), c)
    ensures Hold(k, n, dwell) == (Progress(r, dwell), c)
  {
    var m: nat := r - 1;
    TickAfterSteps(k, m, dwell);
    assert m + 1 == r;
  }

  /** The tick that completes the period fires the key and restarts at 0. */
  lemma HoldStepWraps(k: string, n: nat, m: nat, c: nat, dwell: int)
    requires n >= 1 && m + 1 == Period(dwell)
    requires Hold(k, n - 1, dwell) == (Progress(m, dwell), c)
    ensures Hold(k, n, dwell) == (Progress(0, dwell), c + 1)
  {
    TickAfterSteps(k, m, dwell);
  }

  /** Tick `n` = `q` periods of `p` plus `r` is preceded by tick `n - 1`,
      which is either one step earlier in the same period or the last step
      of the previous period. */
  lemma PreviousTick(n: nat, q: nat, r: nat, p: nat)
    requires p >= 1 && r < p && n == q * p + r
    ensures n == 0 <==> q == 0 && r == 0
    ensures n > 0 && r > 0 ==> n - 1 == q * p + (r - 1)
    ensures n > 0 && r == 0 ==> q > 0 && n - 1 == (q - 1) * p + (p - 1)
  {
    if q > 0 {
      assert q * p == (q - 1) * p + p;
    }
  }

  /** Under continuous hover a key fires exactly once every `Period` ticks:
      after `n` = `q` whole periods and `r` more ticks it has fired `q` times
      and the progress is `r` steps. */
  lemma {:induction false} HoldIsPeriodic(k: string, n: nat, q: nat, r: nat, dwell: int)
    requires r < Period(dwell) && n == q * Period(dwell) + r
    ensures Hold(k, n, dwell) == (Progress(r, dwell), q)
    decreases n
  {
    var p := Period(dwell);
    PreviousTick(n, q, r, p);
    if n > 0 && r > 0 {
      var m: nat := r - 1;
      HoldIsPeriodic(k, n - 1, q, m, dwell);
      HoldStepWithin(k, n, r, q, dwell);
    } else if n > 0 {
      var m: nat, c: nat := p - 1, q - 1;
      HoldIsPeriodic(k, n - 1, c, m, dwell);
      HoldStepWraps(k, n, m, c, dwell);
    }
  }

  /** With the default dwell of 900 ms a key fires every 18 ticks, and not before. */
  lemma DefaultDwellFiresEvery18Ticks(k: string)
    ensures Period(DefaultDwellMs) == 18
    ensures Hold(k, 17, DefaultDwellMs).1 == 0
    ensures Hold(k, 18, DefaultDwellMs).1 == 1
  {
    HoldIsPeriodic(k, 17, 0, 17, DefaultDwellMs);
    HoldIsPeriodic(k, 18, 1, 0, DefaultDwellMs);
  }

  /** The keyboard: its buttons, the hovered button (by position in the list,
      which stands for the identity of the button record) and the progress. */
  class Keyboard {
    var buttons: seq<Button>
    var hover: Option<nat>
    var progress: real
    const dwell: int

    ghost predicate Valid()
      reads this
    {
      (hover.Some? ==> hover.value < |buttons|) && 0.0 <= progress < 1.0
    }

    /** The key of the hovered button, if any. */
    function HoveredKey(): (k: Option<string>)
      reads this
      requires Valid()
      ensures k.Some? <==> hover.Some?
      ensures hover.Some? ==> k.value == buttons[hover.value].key
    {
      match hover
      case Some(i) => Some(buttons[i].key)
      case None => None
    }

    constructor (dwellMs: Option<int>, setting: Option<int>)
      ensures Valid()
      ensures buttons == InitialButtons() && hover == None && progress == 0.0
      ensures dwell == InitialDwell(dwellMs, setting)
    {
      buttons := InitialButtons();
      hover := None;
      progress := 0.0;
      dwell := InitialDwell(dwellMs, setting);
    }

    /** Re-read every button's rectangle; a button whose widget cannot be
        measured (`None`) keeps its previous rectangle. */
    method MeasureButtons(geometry: seq<Option<Rect>>)
      requires Valid()
      requires |geometry| == |buttons|
      modifies this
      ensures Valid()
      ensures |buttons| == |old(buttons)| && hover == old(hover) && progress == old(progress)
      ensures forall i :: 0 <= i < |buttons| ==>
                buttons[i].key == old(buttons[i].key) &&
                match geometry[i]
                case Some(g) => buttons[i] == Button(old(buttons[i].key), g.x, g.y, g.w, g.h)
                case None => buttons[i] == old(buttons[i])
    {
      var i := 0;
      while i < |buttons|
        invariant 0 <= i <= |buttons| == |old(buttons)|
        invariant hover == old(hover) && progress == old(progress)
        invariant forall j :: i <= j < |buttons| ==> buttons[j] == old(buttons[j])
        invariant forall j :: 0 <= j < i ==>
                    match geometry[j]
                    case Some(g) => buttons[j] == Button(old(buttons[j].key), g.x, g.y, g.w, g.h)
                    case None => buttons[j] == old(buttons[j])
      {
        match geometry[i] {
          case Some(g) =>
            buttons := buttons[i := Button(buttons[i].key, g.x, g.y, g.w, g.h)];
          case None =>
        }
        i := i + 1;
      }
    }

    /** Hover the first button under the point; moving to another button, or
        to none, discards the progress, while staying on the same button keeps it. */
    method SetHoverByCoords(sx: int, sy: int)
      requires Valid()
      modifies this
      ensures Valid()
      ensures buttons == old(buttons)
      ensures IsFirstHit(buttons, sx, sy, hover)
      ensures hover != old(hover) ==> progress == 0.0
      ensures hover == old(hover) ==> progress == old(progress)
    {
      var hit := HitTest(buttons, sx, sy);
      if hit != hover {
        hover := hit;
        progress := 0.0;
      }
    }

    /** One iteration of the background loop: advance the progress while a
        button is hovered and fire its key once the progress reaches 1; the
        fired key is what the loop hands to its `on_key` callback. */
    method Tick() returns (fired: Option<string>)
      requires Valid()
      modifies this
      ensures Valid()
      ensures buttons == old(buttons) && hover == old(hover)
      ensures TickResult(progress, fired) == TickSpec(old(HoveredKey()), old(progress), dwell)
    {
      fired := None;
      if hover.Some? {
        progress := progress + StepSize(dwell);
        if progress >= 1.0 {
          var key := buttons[hover.value].key;
          fired := Some(key);
          progress := 0.0;
        }
      } else {
        progress := 0.0;
      }
    }
  }
}
