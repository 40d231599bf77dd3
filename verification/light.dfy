/**
 The light controller: a strip of LED_COUNT pixels split into two zones, one
 button per zone and a third button that shuts the fixture down after a long
 press. Each zone keeps a short-press counter that alternates between the two
 brightness stages.

 The loop body is a pure step from the three readings, the two counters and the
 buffer to the new counters, the new buffer, what was shown and whether the
 program halted. The shutdown command and process exit are represented only by
 the `halted` flag.

 The zone tables are plain sequences. As written, the second zone starts at
 index 299, one past the last pixel of a 299-pixel strip; `AsWritten` keeps
 that table and `AsWrittenOverruns` exhibits the problem, while the running
 model uses `Corrected`, whose second zone starts at 298. The step itself is
 stated for any layout whose indices fit the strip.
 */
module Light {
  import opened Ranges
  import opened GpioEvent
  import opened LedAnimations

  const LedCount := 299
  const Btn01Pin := 27
  const Btn02Pin := 22
  const BtnShPin := 3
  /** The shutdown button needs a 3 s press; the zone buttons use the default. */
  const ShutdownLongPressMs := 3000
  /** Pause, in milliseconds, between the frames of the start-up and shutdown wipes. */
  const WipeMs := 5
  /** Pixels of the second zone that stay dark at the first brightness stage. */
  const Zone02DarkHead := 60

  /** The named colours. Their packing into channel values plays no role here. */
  datatype Color = Off | ShutdownIndicator | OnIndicator | Stage01 | Stage02

  /** `ZONE_01 = list(range(0, 176, 1))`. */
  function Zone01(): seq<int>
  {
    Range(0, 176, 1)
  }

  /** `ZONE_02 = list(range(299, 177, -1))`, as the program writes it. */
  function Zone02AsWritten(): seq<int>
  {
    Range(299, 177, -1)
  }

  /** The second zone with its first index moved to the strip's last pixel:
      `range(298, 177, -1)`. */
  function Zone02(): seq<int>
  {
    Range(298, 177, -1)
  }

  /** The two zones the buttons drive. */
  datatype Layout = Layout(zone1: seq<int>, zone2: seq<int>)

  function AsWritten(): Layout
  {
    Layout(Zone01(), Zone02AsWritten())
  }

  function Corrected(): Layout
  {
    Layout(Zone01(), Zone02())
  }

  /** Every zone index addresses one of the n pixels. */
  predicate Fits(n: nat, layout: Layout)
  {
    && (forall k :: 0 <= k < |layout.zone1| ==> 0 <= layout.zone1[k] < n)
    && (forall k :: 0 <= k < |layout.zone2| ==> 0 <= layout.zone2[k] < n)
  }

  /** The zones do not reach into each other, and neither selects the whole strip:
      zone 1 is not empty and zone 2 is long enough that dropping its dark head
      leaves something. */
  predicate Separated(layout: Layout)
  {
    && layout.zone1 != []
    && |layout.zone2| > Zone02DarkHead
    && Distinct(layout.zone2)
    && forall i :: i in layout.zone1 ==> i !in layout.zone2
  }

  /** The tables hold what their ranges describe: zone 1 is 0 .. 175 ascending,
      zone 2 runs down from 298 (299 as written) to 178. */
  lemma ZoneContents()
    ensures |Zone01()| == 176 && forall k :: 0 <= k < 176 ==> Zone01()[k] == k
    ensures |Zone02AsWritten()| == 122 && forall k :: 0 <= k < 122 ==> Zone02AsWritten()[k] == 299 - k
    ensures |Zone02()| == 121 && forall k :: 0 <= k < 121 ==> Zone02()[k] == 298 - k
  {
    UptoContents(176);
    var z := Zone02AsWritten();
    assert |z| == 0 || z[|z| - 1] == 299 - (|z| - 1) > 177;
    var y := Zone02();
    assert |y| == 0 || y[|y| - 1] == 298 - (|y| - 1) > 177;
  }

  /** Which pixels each table selects: zone 1 is 0 .. 175, zone 2 is 178 .. 298
      (178 .. 299 as written). Pixels 176 and 177 belong to neither zone. */
  lemma ZoneMembers()
    ensures forall i :: i in Zone01() <==> 0 <= i < 176
    ensures forall i :: i in Zone02() <==> 178 <= i <= 298
    ensures forall i :: i in Zone02AsWritten() <==> 178 <= i <= 299
  {
    ZoneContents();
    UptoContents(176);
    var y := Zone02();
    forall i | 178 <= i <= 298
      ensures i in y
    {
      assert y[298 - i] == i;
    }
    var z := Zone02AsWritten();
    forall i | 178 <= i <= 299
      ensures i in z
    {
      assert z[299 - i] == i;
    }
  }

  /** As written, the first index of the second zone is LED_COUNT itself, so the
      table does not fit the strip: every zone-2 action would address a pixel the
      strip does not have. */
  lemma AsWrittenOverruns()
    ensures Zone02AsWritten()[0] == LedCount
    ensures !Fits(LedCount, AsWritten())
  {
    ZoneContents();
  }

  /** On a strip of 300 or more pixels the tables as written fit and are separated,
      so every step lemma stated for a fitting, separated layout covers them too. */
  lemma AsWrittenFitsWider(n: nat)
    requires n >= 300
    ensures Fits(n, AsWritten()) && Separated(AsWritten())
  {
    ZoneContents();
    ZoneMembers();
    RangeDistinct(299, 177, -1);
  }

  /** With the second zone starting at 298, both tables fit the strip and are
      separated from each other. */
  lemma CorrectedFits()
    ensures Fits(LedCount, Corrected())
    ensures Separated(Corrected())
  {
    ZoneContents();
    ZoneMembers();
    RangeDistinct(298, 177, -1);
  }

  /** What one zone button does to its counter and to the buffer. */
  datatype ZoneResult = ZoneResult(count: int, strip: seq<Color>, out: seq<Output<Color>>)

  /** One zone's branch of the loop body. `stage1` is what the first stage lights:
      the whole zone for zone 1, the zone without its dark head for zone 2. */
  function ZoneStep(reading: Reading, count: int, zone: seq<int>, stage1: seq<int>, strip: seq<Color>): (r: ZoneResult)
    requires InStrip(strip, zone) && InStrip(strip, stage1)
    ensures |r.strip| == |strip|
    ensures reading == Long ==>
              && r.count == count
              && r.out == [Show(r.strip)]
              && forall i :: 0 <= i < |strip| ==>
                   r.strip[i] == if Hits(|strip|, zone, i) then Off else strip[i]
    ensures reading == Short && count == 0 ==>
              && r.count == 1
              && r.out == [Show(r.strip)]
              && forall i :: 0 <= i < |strip| ==>
                   r.strip[i] == if Hits(|strip|, stage1, i) then Stage01
                                 else if Hits(|strip|, zone, i) then Off
                                 else strip[i]
    ensures reading == Short && count == 1 ==>
              && r.count == 0
              && r.out == [Show(r.strip)]
              && forall i :: 0 <= i < |strip| ==>
                   r.strip[i] == if Hits(|strip|, zone, i) then Stage02 else strip[i]
    ensures reading == Low || reading == High || (reading == Short && count != 0 && count != 1) ==>
              r == ZoneResult(count, strip, [])
  {
    if reading == Long then
      var shown := ShowColor(strip, Off, zone);
      ZoneResult(count, shown.strip, shown.out)
    else if reading == Short && count == 0 then
      var shown := ShowColor(SetColor(strip, Off, zone), Stage01, stage1);
      ZoneResult(count + 1, shown.strip, shown.out)
    else if reading == Short && count == 1 then
      var shown := ShowColor(SetColor(strip, Off, zone), Stage02, zone);
      ZoneResult(0, shown.strip, shown.out)
    else
      ZoneResult(count, strip, [])
  }

  /** `colorWipe(strip, color, [], direction, 5)`: a wipe over the whole strip, as the
      start-up and shutdown sequences use it. It ends with every pixel at `color`
      after one frame and one pause per pixel. */
  function WipeWhole(strip: seq<Color>, color: Color, direction: string): (r: Rendered<Color>)
    ensures |r.strip| == |strip|
    ensures forall i :: 0 <= i < |strip| ==> r.strip[i] == color
    ensures |r.out| == 2 * |strip|
  {
    ColorWipe(strip, color, [], direction, WipeMs)
  }

  /** The shutdown sequence: indicator up, off down, indicator up, off down, each
      over the whole strip. It leaves the strip dark. */
  function Shutdown(strip: seq<Color>): (r: Rendered<Color>)
    ensures |r.strip| == |strip|
    ensures forall i :: 0 <= i < |strip| ==> r.strip[i] == Off
    ensures |r.out| == 8 * |strip|
  {
    var w1 := WipeWhole(strip, ShutdownIndicator, "up");
    var w2 := WipeWhole(w1.strip, Off, "down");
    var w3 := WipeWhole(w2.strip, ShutdownIndicator, "up");
    var w4 := WipeWhole(w3.strip, Off, "down");
    Rendered(w4.strip, w1.out + w2.out + w3.out + w4.out)
  }

  /** The result of one pass through the loop body. */
  datatype Outcome = Outcome(count1: int, count2: int, strip: seq<Color>, out: seq<Output<Color>>, halted: bool)

  /** One pass through the loop body, given the three readings already taken.
      A LONG on the shutdown button runs the shutdown sequence and ends the program
      before either zone is looked at. */
  function Step(layout: Layout, r1: Reading, r2: Reading, rSh: Reading,
                count1: int, count2: int, strip: seq<Color>): (o: Outcome)
    requires Fits(|strip|, layout)
    ensures |o.strip| == |strip|
    ensures o.halted <==> rSh == Long
    ensures rSh == Long ==>
              && o.count1 == count1 && o.count2 == count2
              && (forall i :: 0 <= i < |strip| ==> o.strip[i] == Off)
              && |o.out| == 8 * |strip|
    ensures rSh != Long && Separated(layout) ==>
              forall i :: 0 <= i < |strip| && i !in layout.zone1 && i !in layout.zone2 ==>
                o.strip[i] == strip[i]
  {
    if rSh == Long then
      var down := Shutdown(strip);
      Outcome(count1, count2, down.strip, down.out, true)
    else
      var z1 := ZoneStep(r1, count1, layout.zone1, layout.zone1, strip);
      var z2 := ZoneStep(r2, count2, layout.zone2, Drop(layout.zone2, Zone02DarkHead), z1.strip);
      Outcome(z1.count, z2.count, z2.strip, z1.out + z2.out, false)
  }

  /** Neither LOW nor HIGH does anything: counters, buffer and output stay as they are. */
  lemma StepIdle(layout: Layout, r1: Reading, r2: Reading, rSh: Reading,
                 count1: int, count2: int, strip: seq<Color>)
    requires Fits(|strip|, layout)
    requires r1 == Low || r1 == High
    requires r2 == Low || r2 == High
    requires rSh != Long
    ensures Step(layout, r1, r2, rSh, count1, count2, strip) == Outcome(count1, count2, strip, [], false)
  {
  }

  /** Each counter stays in {0, 1}, flips on SHORT and holds otherwise; each zone
      button that acts issues exactly one flush. */
  lemma StepCounters(layout: Layout, r1: Reading, r2: Reading, rSh: Reading,
                     count1: int, count2: int, strip: seq<Color>)
    requires Fits(|strip|, layout)
    requires count1 == 0 || count1 == 1
    requires count2 == 0 || count2 == 1
    requires rSh != Long
    ensures var o := Step(layout, r1, r2, rSh, count1, count2, strip);
            && o.count1 == (if r1 == Short then 1 - count1 else count1)
            && o.count2 == (if r2 == Short then 1 - count2 else count2)
            && |o.out| == (if r1 == Short || r1 == Long then 1 else 0)
                          + (if r2 == Short || r2 == Long then 1 else 0)
            && forall k :: 0 <= k < |o.out| ==> o.out[k].Show?
  {
  }

  /** The shutdown button takes precedence: with it LONG, the zone readings and
      counters have no influence on the buffer or the output. */
  lemma ShutdownIgnoresZones(layout: Layout, r1: Reading, r2: Reading, q1: Reading, q2: Reading,
                             count1: int, count2: int, strip: seq<Color>)
    requires Fits(|strip|, layout)
    ensures var o := Step(layout, r1, r2, Long, count1, count2, strip);
            var p := Step(layout, q1, q2, Long, count1, count2, strip);
            o == p && o.halted
  {
  }

  /** A zone action decides each pixel from that pixel's old value alone. */
  lemma ZoneStepPixel(reading: Reading, count: int, zone: seq<int>, stage1: seq<int>,
                      s: seq<Color>, t: seq<Color>, i: int)
    requires InStrip(s, zone) && InStrip(s, stage1) && |t| == |s|
    requires 0 <= i < |s| && s[i] == t[i]
    ensures InStrip(t, zone) && InStrip(t, stage1)
    ensures ZoneStep(reading, count, zone, stage1, s).strip[i] == ZoneStep(reading, count, zone, stage1, t).strip[i]
  {
  }

  /** A zone action leaves alone every pixel that neither its zone nor its stage-1
      range selects. */
  lemma ZoneStepAway(reading: Reading, count: int, zone: seq<int>, stage1: seq<int>, s: seq<Color>, i: int)
    requires InStrip(s, zone) && InStrip(s, stage1)
    requires 0 <= i < |s| && !Hits(|s|, zone, i) && !Hits(|s|, stage1, i)
    ensures ZoneStep(reading, count, zone, stage1, s).strip[i] == s[i]
  {
  }

  /** Zone-1 actions never change a zone-2 pixel and zone-2 actions never change a
      zone-1 pixel: on each zone, the step does what that zone's own button says,
      whatever the other button reads. */
  lemma ZonesIndependent(layout: Layout, r1: Reading, r2: Reading, rSh: Reading,
                         count1: int, count2: int, strip: seq<Color>)
    requires Fits(|strip|, layout) && Separated(layout)
    requires rSh != Long
    ensures var o := Step(layout, r1, r2, rSh, count1, count2, strip);
            && (forall i :: i in layout.zone1 ==> o.strip[i] == Step(layout, r1, Low, rSh, count1, count2, strip).strip[i])
            && (forall i :: i in layout.zone2 ==> o.strip[i] == Step(layout, Low, r2, rSh, count1, count2, strip).strip[i])
  {
    var n := |strip|;
    var head := Drop(layout.zone2, Zone02DarkHead);
    assert forall i :: i in head ==> i in layout.zone2;
    var z1 := ZoneStep(r1, count1, layout.zone1, layout.zone1, strip);
    forall i | i in layout.zone1
      ensures Step(layout, r1, r2, rSh, count1, count2, strip).strip[i] == z1.strip[i]
    {
      ZoneStepAway(r2, count2, layout.zone2, head, z1.strip, i);
    }
    forall i | i in layout.zone2
      ensures Step(layout, r1, r2, rSh, count1, count2, strip).strip[i]
           == ZoneStep(r2, count2, layout.zone2, head, strip).strip[i]
    {
      ZoneStepAway(r1, count1, layout.zone1, layout.zone1, strip, i);
      ZoneStepPixel(r2, count2, layout.zone2, head, z1.strip, strip, i);
    }
  }

  /** A LONG on a zone button alone turns exactly that zone off, keeps its counter
      and flushes once, whatever the shutdown button reads short of LONG. */
  lemma ZoneLong(layout: Layout, zone1Long: bool, rSh: Reading, count1: int, count2: int, strip: seq<Color>)
    requires Fits(|strip|, layout) && Separated(layout)
    requires rSh != Long
    ensures var zone := if zone1Long then layout.zone1 else layout.zone2;
            var o := if zone1Long then Step(layout, Long, Low, rSh, count1, count2, strip)
                     else Step(layout, Low, Long, rSh, count1, count2, strip);
            && o.count1 == count1 && o.count2 == count2 && !o.halted
            && o.out == [Show(o.strip)]
            && forall i :: 0 <= i < |strip| ==> o.strip[i] == if i in zone then Off else strip[i]
  {
  }

  /** A SHORT on button 1 lights the whole of zone 1: stage 1 from counter 0,
      stage 2 from counter 1, whatever the shutdown button reads short of LONG. */
  lemma Zone1Short(layout: Layout, r2: Reading, rSh: Reading, count1: int, count2: int, strip: seq<Color>)
    requires Fits(|strip|, layout) && Separated(layout)
    requires rSh != Long
    requires count1 == 0 || count1 == 1
    ensures var o := Step(layout, Short, r2, rSh, count1, count2, strip);
            forall i :: i in layout.zone1 ==> o.strip[i] == if count1 == 0 then Stage01 else Stage02
  {
    ZonesIndependent(layout, Short, r2, rSh, count1, count2, strip);
  }

  /** A SHORT on button 2 from counter 0 leaves the first 60 pixels of zone 2 off and
      lights the rest at stage 1; from counter 1 it lights all of zone 2 at stage 2.
      The shutdown button may read anything short of LONG. */
  lemma Zone2Short(layout: Layout, r1: Reading, rSh: Reading, count1: int, count2: int, strip: seq<Color>)
    requires Fits(|strip|, layout) && Separated(layout)
    requires rSh != Long
    requires count2 == 0 || count2 == 1
    ensures var o := Step(layout, r1, Short, rSh, count1, count2, strip);
            var z := layout.zone2;
            && (count2 == 0 ==> forall k :: 0 <= k < |z| ==>
                  o.strip[z[k]] == if k < Zone02DarkHead then Off else Stage01)
            && (count2 == 1 ==> forall k :: 0 <= k < |z| ==> o.strip[z[k]] == Stage02)
  {
    ZonesIndependent(layout, r1, Short, rSh, count1, count2, strip);
    var z := layout.zone2;
    var head := Drop(z, Zone02DarkHead);
    forall k | 0 <= k < |z|
      ensures z[k] in head <==> k >= Zone02DarkHead
    {
      if k >= Zone02DarkHead {
        assert head[k - Zone02DarkHead] == z[k];
      } else {
        forall j | 0 <= j < |head|
          ensures head[j] != z[k]
        {
          assert head[j] == z[Zone02DarkHead + j];
        }
      }
    }
  }

  /** Everything the program keeps between passes of the loop. */
  datatype Loop = Loop(btn1: Button, btn2: Button, btnSh: Button,
                       count1: int, count2: int, strip: seq<Color>, halted: bool)

  /** The state the program settles in for the given layout: the buttons configured as
      at start-up and consistent, counters in {0, 1}, the buffer LED_COUNT long. */
  predicate Invariant(layout: Layout, l: Loop)
  {
    && |l.strip| == LedCount && Fits(|l.strip|, layout)
    && (l.count1 == 0 || l.count1 == 1) && (l.count2 == 0 || l.count2 == 1)
    && l.btn1.pin == Btn01Pin && l.btn1.longPress == DefaultLongPressMs * 1000
    && l.btn2.pin == Btn02Pin && l.btn2.longPress == DefaultLongPressMs * 1000
    && l.btnSh.pin == BtnShPin && l.btnSh.longPress == ShutdownLongPressMs * 1000
    && Consistent(l.btn1) && Consistent(l.btn2) && Consistent(l.btnSh)
  }

  /** Start-up: the three buttons, an on-indicator wipe up the strip and an off wipe
      down it, counters at 0. */
  function Boot(strip: seq<Color>): (r: (Loop, seq<Output<Color>>))
    requires |strip| == LedCount
    ensures Invariant(Corrected(), r.0)
    ensures r.0.count1 == 0 && r.0.count2 == 0 && !r.0.halted
    ensures r.0.btn1.state == Low && r.0.btn2.state == Low && r.0.btnSh.state == Low
    ensures forall i :: 0 <= i < |r.0.strip| ==> r.0.strip[i] == Off
    ensures |r.1| == 4 * LedCount
  {
    CorrectedFits();
    var on := WipeWhole(strip, OnIndicator, "up");
    var off := WipeWhole(on.strip, Off, "down");
    var l := Loop(Create(Btn01Pin, DefaultLongPressMs), Create(Btn02Pin, DefaultLongPressMs),
                  Create(BtnShPin, ShutdownLongPressMs), 0, 0, off.strip, false);
    (l, on.out + off.out)
  }

  /** A button after its classification has been read: a SHORT or LONG is back to
      LOW, anything else, and the pin, threshold and press time, as before. */
  function Consumed(b: Button): (c: Button)
    ensures c == State(b).1
  {
    b.(state := if b.state == Short || b.state == Long then Low else b.state)
  }

  /** One iteration of the `while True` loop: all three buttons are read (and a SHORT
      or LONG on any of them consumed) before anything acts on the readings. Once the
      program has halted nothing more happens. */
  function Tick(layout: Layout, l: Loop): (r: (Loop, seq<Output<Color>>))
    requires Fits(|l.strip|, layout)
    ensures l.halted ==> r == (l, [])
    ensures !l.halted ==>
              var o := Step(layout, l.btn1.state, l.btn2.state, l.btnSh.state, l.count1, l.count2, l.strip);
              && r.0.count1 == o.count1 && r.0.count2 == o.count2 && r.0.strip == o.strip
              && r.1 == o.out && r.0.halted == o.halted
    ensures !l.halted ==>
              && r.0.btn1.state != Short && r.0.btn1.state != Long
              && r.0.btn2.state != Short && r.0.btn2.state != Long
              && r.0.btnSh.state != Short && r.0.btnSh.state != Long
              && r.0.btn1 == Consumed(l.btn1)
              && r.0.btn2 == Consumed(l.btn2)
              && r.0.btnSh == Consumed(l.btnSh)
  {
    if l.halted then (l, [])
    else
      var (v1, b1) := State(l.btn1);
      var (v2, b2) := State(l.btn2);
      var (vSh, bSh) := State(l.btnSh);
      var o := Step(layout, v1, v2, vSh, l.count1, l.count2, l.strip);
      (Loop(b1, b2, bSh, o.count1, o.count2, o.strip, o.halted), o.out)
  }

  /** A zone press read in the same pass as a shutdown LONG is consumed without
      effect. */
  lemma ShutdownSwallowsZonePress(layout: Layout, l: Loop)
    requires Fits(|l.strip|, layout)
    requires !l.halted && l.btnSh.state == Long && l.btn1.state == Short
    ensures var r := Tick(layout, l);
            r.0.halted && r.0.count1 == l.count1 && r.0.btn1.state == Low
  {
  }

  /** Something that can happen between two observations of the program: a callback
      from the GPIO library, or one pass through the loop. */
  datatype Action = Callback(edge: Edge) | Pass

  /** A callback reaches the button on its pin; the other buttons ignore it. It never
      touches the counters, the buffer or the halted flag. */
  function Deliver(l: Loop, e: Edge): (r: Loop)
    ensures r.count1 == l.count1 && r.count2 == l.count2 && r.strip == l.strip && r.halted == l.halted
    ensures e.gpio == l.btn1.pin ==> r.btn1 == OnEvent(l.btn1, e.gpio, e.level, e.tick)
    ensures e.gpio == l.btn2.pin ==> r.btn2 == OnEvent(l.btn2, e.gpio, e.level, e.tick)
    ensures e.gpio == l.btnSh.pin ==> r.btnSh == OnEvent(l.btnSh, e.gpio, e.level, e.tick)
    ensures e.gpio != l.btn1.pin ==> r.btn1 == l.btn1
    ensures e.gpio != l.btn2.pin ==> r.btn2 == l.btn2
    ensures e.gpio != l.btnSh.pin ==> r.btnSh == l.btnSh
    ensures r.btn1.pin == l.btn1.pin && r.btn1.longPress == l.btn1.longPress
    ensures r.btn2.pin == l.btn2.pin && r.btn2.longPress == l.btn2.longPress
    ensures r.btnSh.pin == l.btnSh.pin && r.btnSh.longPress == l.btnSh.longPress
    ensures Consistent(l.btn1) && Consistent(l.btn2) && Consistent(l.btnSh) ==>
              Consistent(r.btn1) && Consistent(r.btn2) && Consistent(r.btnSh)
  {
    l.(btn1 := OnEvent(l.btn1, e.gpio, e.level, e.tick),
       btn2 := OnEvent(l.btn2, e.gpio, e.level, e.tick),
       btnSh := OnEvent(l.btnSh, e.gpio, e.level, e.tick))
  }

  /** One callback or one loop pass keeps the invariant. */
  lemma ActionKeepsInvariant(layout: Layout, l: Loop, a: Action)
    requires Invariant(layout, l)
    ensures a.Callback? ==> Invariant(layout, Deliver(l, a.edge))
    ensures a.Pass? ==> Invariant(layout, Tick(layout, l).0)
  {
    if a.Pass? && !l.halted && l.btnSh.state != Long {
      StepCounters(layout, l.btn1.state, l.btn2.state, l.btnSh.state, l.count1, l.count2, l.strip);
    }
  }

  /** Callbacks and loop passes interleaved in the given order. Whatever the
      interleaving, the counters stay in {0, 1}, the buffer keeps its length, the
      buttons keep their configuration and every button stays consistent. */
  function Execute(layout: Layout, l: Loop, actions: seq<Action>): (r: Loop)
    requires Invariant(layout, l)
    ensures Invariant(layout, r)
    decreases |actions|
  {
    if actions == [] then l
    else
      ActionKeepsInvariant(layout, l, actions[0]);
      var next := match actions[0]
        case Callback(e) => Deliver(l, e)
        case Pass => Tick(layout, l).0;
      Execute(layout, next, actions[1..])
  }
}
