/**
 One push-button as the controller sees it: electrical edges and watchdog expiries
 come in through `OnEvent`; the polling loop consumes the resulting classification
 through `State`, which clears a SHORT or LONG press back to LOW (read and clear).

 Ticks are the GPIO library's microsecond timestamps, taken as unbounded integers.
 A recorded press time of 0 doubles as "no press recorded", exactly as in the code
 it models, so a falling edge that happens to arrive at tick 0 is forgotten.
 */
module GpioEvent {

  /** The four values the classification can hold. HIGH marks a press in progress. */
  datatype Reading = Low | High | Short | Long

  /** A monitored pin: its long-press threshold in ticks, its classification and the
      tick of the last falling edge (0 when none is recorded). */
  datatype Button = Button(pin: int, longPress: int, state: Reading, calltime: int)

  /** A callback invocation: pin, level (0 falling, 1 rising, anything else is the
      watchdog) and tick. */
  datatype Edge = Edge(gpio: int, level: int, tick: int)

  /** Long-press threshold, in milliseconds, when the caller gives none. */
  const DefaultLongPressMs := 1500

  /** A press time is kept only while a press is in progress. */
  predicate Consistent(b: Button)
  {
    b.state != High ==> b.calltime == 0
  }

  /** A freshly configured button: no press seen, threshold scaled from milliseconds
      to ticks. The pin set-up and watchdog registration are hardware calls. */
  function Create(pin: int, longPressMs: int): (b: Button)
    ensures b.pin == pin && b.longPress == longPressMs * 1000
    ensures b.state == Low && Consistent(b)
  {
    Button(pin, longPressMs * 1000, Low, 0)
  }

  /** The classification a release at `release` gives to a press recorded at `press`. */
  function Classify(longPress: int, press: int, release: int): (r: Reading)
    ensures r == Low <==> press == 0
    ensures r == Long <==> press != 0 && release - press > longPress
    ensures r == Short <==> press != 0 && release - press <= longPress
  {
    if press == 0 then Low
    else if release - press > longPress then Long
    else Short
  }

  /** The edge callback. */
  function OnEvent(b: Button, gpio: int, level: int, tick: int): (b': Button)
    ensures b'.pin == b.pin && b'.longPress == b.longPress
    ensures gpio != b.pin ==> b' == b
    ensures gpio == b.pin ==> Consistent(b')
    ensures gpio == b.pin && level == 0 ==> b'.state == High && b'.calltime == tick
    ensures gpio == b.pin && level != 0 ==> b'.calltime == 0
    ensures gpio == b.pin && level == 1 ==>
              (b'.state == Long <==> b.calltime != 0 && tick - b.calltime > b.longPress)
              && (b'.state == Short <==> b.calltime != 0 && tick - b.calltime <= b.longPress)
              && (b'.state == Low <==> b.calltime == 0)
    ensures gpio == b.pin && level != 0 && level != 1 ==> b'.state == Low
  {
    if gpio != b.pin then b
    else if level == 0 then b.(calltime := tick, state := High)
    else if level == 1 then
      if b.calltime != 0 && tick - b.calltime > b.longPress then b.(state := Long, calltime := 0)
      else if b.calltime != 0 then b.(state := Short, calltime := 0)
      else b.(state := Low, calltime := 0)
    else b.(state := Low, calltime := 0)
  }

  /** The polling read: the current classification, and the button with a SHORT or
      LONG press consumed. */
  function State(b: Button): (r: (Reading, Button))
    ensures r.0 == b.state
    ensures r.1.pin == b.pin && r.1.longPress == b.longPress && r.1.calltime == b.calltime
    ensures r.1.state != Short && r.1.state != Long
    ensures b.state == Low || b.state == High ==> r.1 == b
    ensures b.state == Short || b.state == Long ==> r.1.state == Low
    ensures Consistent(b) ==> Consistent(r.1)
  {
    if b.state == Short then (Short, b.(state := Low))
    else if b.state == Long then (Long, b.(state := Low))
    else (b.state, b)
  }

  /** A sequence of callbacks delivered one after another. */
  function Run(b: Button, edges: seq<Edge>): Button
    decreases |edges|
  {
    if edges == [] then b
    else Run(OnEvent(b, edges[0].gpio, edges[0].level, edges[0].tick), edges[1..])
  }

  /** The callbacks that concern pin `pin`. */
  function OnPin(edges: seq<Edge>, pin: int): (r: seq<Edge>)
    ensures |r| <= |edges|
    ensures forall k :: 0 <= k < |r| ==> r[k].gpio == pin && r[k] in edges
    ensures forall e :: e in edges && e.gpio == pin ==> e in r
  {
    if edges == [] then []
    else if edges[0].gpio == pin then [edges[0]] + OnPin(edges[1..], pin)
    else OnPin(edges[1..], pin)
  }

  /** Releasing the button right after pressing it classifies the press by its length;
      what happened before the press does not matter. */
  lemma PressRelease(b: Button, press: int, release: int)
    ensures var b' := Run(b, [Edge(b.pin, 0, press), Edge(b.pin, 1, release)]);
            b'.state == Classify(b.longPress, press, release) && b'.calltime == 0
  {
    var b1 := OnEvent(b, b.pin, 0, press);
    var edges := [Edge(b.pin, 0, press), Edge(b.pin, 1, release)];
    assert edges[1..] == [Edge(b.pin, 1, release)];
    assert Run(b1, [Edge(b.pin, 1, release)]) == Run(OnEvent(b1, b.pin, 1, release), []);
  }

  /** With a real press time, a hold of exactly the threshold is still SHORT:
      LONG needs strictly more. */
  lemma ShortIffWithinThreshold(b: Button, press: int, release: int)
    requires press != 0
    ensures var b' := Run(b, [Edge(b.pin, 0, press), Edge(b.pin, 1, release)]);
            (b'.state == Short <==> release - press <= b.longPress)
            && (b'.state == Long <==> release - press > b.longPress)
  {
    PressRelease(b, press, release);
  }

  /** With the default threshold of 1500 ms (1 500 000 ticks): a 1.2 s hold is SHORT,
      a 1.8 s hold is LONG and a hold of exactly 1.5 s is still SHORT. */
  lemma DefaultThresholdHolds(pin: int, press: int)
    requires press != 0
    ensures var b := Create(pin, DefaultLongPressMs);
            && b.longPress == 1_500_000
            && Run(b, [Edge(pin, 0, press), Edge(pin, 1, press + 1_200_000)]).state == Short
            && Run(b, [Edge(pin, 0, press), Edge(pin, 1, press + 1_800_000)]).state == Long
            && Run(b, [Edge(pin, 0, press), Edge(pin, 1, press + 1_500_000)]).state == Short
  {
    var b := Create(pin, DefaultLongPressMs);
    PressRelease(b, press, press + 1_200_000);
    PressRelease(b, press, press + 1_800_000);
    PressRelease(b, press, press + 1_500_000);
  }

  /** The sentinel at work: a press whose falling edge carries tick 0 reads as no press. */
  lemma PressAtTickZeroForgotten(b: Button, release: int)
    ensures Run(b, [Edge(b.pin, 0, 0), Edge(b.pin, 1, release)]).state == Low
  {
    PressRelease(b, 0, release);
  }

  /** A watchdog expiry during a press cancels it: the release then reads as LOW. */
  lemma WatchdogCancelsPress(b: Button, press: int, level: int, expiry: int, release: int)
    requires level != 0 && level != 1
    ensures Run(b, [Edge(b.pin, 0, press), Edge(b.pin, level, expiry), Edge(b.pin, 1, release)]).state == Low
  {
    var b1 := OnEvent(b, b.pin, 0, press);
    var b2 := OnEvent(b1, b.pin, level, expiry);
    var edges := [Edge(b.pin, 0, press), Edge(b.pin, level, expiry), Edge(b.pin, 1, release)];
    assert edges[1..] == [Edge(b.pin, level, expiry), Edge(b.pin, 1, release)];
    assert edges[1..][1..] == [Edge(b.pin, 1, release)];
    assert Run(b2, [Edge(b.pin, 1, release)]) == Run(OnEvent(b2, b.pin, 1, release), []);
  }

  /** The classification is a single slot: two complete presses before a poll leave
      only the second one to be read. */
  lemma SecondPressOverwritesFirst(b: Button, p1: int, r1: int, p2: int, r2: int)
    ensures Run(b, [Edge(b.pin, 0, p1), Edge(b.pin, 1, r1), Edge(b.pin, 0, p2), Edge(b.pin, 1, r2)]).state
         == Classify(b.longPress, p2, r2)
  {
    var first := [Edge(b.pin, 0, p1), Edge(b.pin, 1, r1)];
    var second := [Edge(b.pin, 0, p2), Edge(b.pin, 1, r2)];
    assert first + second
        == [Edge(b.pin, 0, p1), Edge(b.pin, 1, r1), Edge(b.pin, 0, p2), Edge(b.pin, 1, r2)];
    RunAppend(b, first, second);
    RunKeepsConfig(b, first);
    PressRelease(Run(b, first), p2, r2);
  }

  /** Delivering two batches of callbacks is delivering their concatenation. */
  lemma {:induction false} RunAppend(b: Button, xs: seq<Edge>, ys: seq<Edge>)
    ensures Run(b, xs + ys) == Run(Run(b, xs), ys)
    decreases |xs|
  {
    if xs == [] {
      assert xs + ys == ys;
    } else {
      assert (xs + ys)[1..] == xs[1..] + ys;
      RunAppend(OnEvent(b, xs[0].gpio, xs[0].level, xs[0].tick), xs[1..], ys);
    }
  }

  /** Every sequence of callbacks keeps the press time tied to a press in progress. */
  lemma {:induction false} RunKeepsConsistent(b: Button, edges: seq<Edge>)
    requires Consistent(b)
    ensures Consistent(Run(b, edges))
    decreases |edges|
  {
    if edges != [] {
      RunKeepsConsistent(OnEvent(b, edges[0].gpio, edges[0].level, edges[0].tick), edges[1..]);
    }
  }

  /** No callback changes the pin or the threshold. */
  lemma {:induction false} RunKeepsConfig(b: Button, edges: seq<Edge>)
    ensures Run(b, edges).pin == b.pin && Run(b, edges).longPress == b.longPress
    decreases |edges|
  {
    if edges != [] {
      RunKeepsConfig(OnEvent(b, edges[0].gpio, edges[0].level, edges[0].tick), edges[1..]);
    }
  }

  /** Callbacks for other pins are ignored: only the button's own edges matter. */
  lemma {:induction false} RunIgnoresOtherPins(b: Button, edges: seq<Edge>)
    ensures Run(b, edges) == Run(b, OnPin(edges, b.pin))
    decreases |edges|
  {
    if edges != [] {
      var b1 := OnEvent(b, edges[0].gpio, edges[0].level, edges[0].tick);
      RunIgnoresOtherPins(b1, edges[1..]);
      if edges[0].gpio == b.pin {
        assert OnPin(edges, b.pin) == [edges[0]] + OnPin(edges[1..], b.pin);
        assert Run(b, OnPin(edges, b.pin)) == Run(b1, OnPin(edges[1..], b.pin));
      }
    }
  }

  /** Read and clear: a SHORT or LONG is delivered once; the next read sees LOW,
      and reading LOW or HIGH changes nothing. */
  lemma ReadClears(b: Button)
    ensures var (v, b1) := State(b);
            (v == Short || v == Long ==> State(b1) == (Low, b1))
            && (v == Low || v == High ==> b1 == b && State(b1).0 == v)
  {
  }
}
