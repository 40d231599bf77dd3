/**
 The pixel-buffer animations. A strip is the sequence of its pixel colours; the
 colour type is a parameter, since the animations only store colours and never
 look inside them. Pushing the buffer to the LEDs is recorded as a `Show` of the
 whole frame, and each pause of a wipe as a `Sleep` marker carrying the
 requested milliseconds.

 A range argument lists pixel indices in the order they are written. An empty
 range (Python's `[]` or `None`, which the code treats alike) stands for the
 whole strip, 0 .. numPixels-1. Every listed index must address a pixel of the
 strip: what the strip driver does with any other index is not part of this model.
 */
module LedAnimations {
  import opened Ranges

  /** What reaches the hardware, in order. */
  datatype Output<C> = Show(frame: seq<C>) | Sleep(ms: int)

  /** A strip buffer together with the output produced while computing it. */
  datatype Rendered<C> = Rendered(strip: seq<C>, out: seq<Output<C>>)

  /** Every index of `idx` names a pixel of `strip`. */
  predicate InStrip<C>(strip: seq<C>, idx: seq<int>)
  {
    forall k :: 0 <= k < |idx| ==> 0 <= idx[k] < |strip|
  }

  /** Whether pixel i is among those a range argument selects on a strip of n pixels. */
  predicate Hits(n: nat, rng: seq<int>, i: int)
  {
    if rng == [] then 0 <= i < n else i in rng
  }

  /** The indices a range argument stands for, in the order the code visits them. */
  function Targets(n: nat, rng: seq<int>): (t: seq<int>)
    ensures rng != [] ==> t == rng
    ensures rng == [] ==> |t| == n && forall k :: 0 <= k < n ==> t[k] == k
    ensures forall i :: i in t <==> Hits(n, rng, i)
  {
    UptoContents(n);
    if rng == [] then Range(0, n, 1) else rng
  }

  /** Writes `color` at each index of `idx` in turn. */
  function Paint<C>(strip: seq<C>, color: C, idx: seq<int>): (r: seq<C>)
    requires InStrip(strip, idx)
    ensures |r| == |strip|
    ensures forall i :: 0 <= i < |r| ==> r[i] == if i in idx then color else strip[i]
    decreases |idx|
  {
    if idx == [] then strip
    else
      assert forall i :: i in idx <==> i == idx[0] || i in idx[1..];
      Paint(strip[idx[0] := color], color, idx[1..])
  }

  /** The order in which pixels are written does not matter, only which ones are. */
  lemma PaintSameMembers<C>(strip: seq<C>, color: C, a: seq<int>, b: seq<int>)
    requires InStrip(strip, a) && InStrip(strip, b)
    requires forall i :: i in a <==> i in b
    ensures Paint(strip, color, a) == Paint(strip, color, b)
  {
  }

  /** `setColor`: stage `color` into the buffer at the selected pixels; nothing is shown. */
  function SetColor<C>(strip: seq<C>, color: C, rng: seq<int>): (r: seq<C>)
    requires InStrip(strip, rng)
    ensures |r| == |strip|
    ensures forall i :: 0 <= i < |r| ==> r[i] == if Hits(|strip|, rng, i) then color else strip[i]
  {
    Paint(strip, color, Targets(|strip|, rng))
  }

  /** `showColor`: the buffer `setColor` would produce, then one flush of it. */
  function ShowColor<C>(strip: seq<C>, color: C, rng: seq<int>): (r: Rendered<C>)
    requires InStrip(strip, rng)
    ensures r.strip == SetColor(strip, color, rng)
    ensures r.out == [Show(r.strip)]
  {
    var s := SetColor(strip, color, rng);
    Rendered(s, [Show(s)])
  }

  /** The order in which `colorWipe` visits the selected pixels: as listed for "up",
      reversed for any other direction. */
  function Visit(n: nat, rng: seq<int>, direction: string): (order: seq<int>)
    ensures var t := Targets(n, rng);
            |order| == |t|
            && forall k :: 0 <= k < |t| ==>
                 order[k] == if direction == "up" then t[k] else t[|t| - 1 - k]
    ensures forall i :: i in order <==> Hits(n, rng, i)
  {
    var t := Targets(n, rng);
    ReversedMembers(t);
    if direction == "up" then t else Reversed(t)
  }

  /** One pixel at a time along `order`: write it, show the whole buffer, pause. */
  function Wipe<C>(strip: seq<C>, color: C, order: seq<int>, waitMs: int): (r: Rendered<C>)
    requires InStrip(strip, order)
    ensures r.strip == Paint(strip, color, order)
    ensures |r.out| == 2 * |order|
    ensures forall k :: 0 <= k < |order| ==>
              r.out[2 * k] == Show(Paint(strip, color, order[..k + 1]))
              && r.out[2 * k + 1] == Sleep(waitMs)
    decreases |order|
  {
    if order == [] then Rendered(strip, [])
    else
      var s1 := strip[order[0] := color];
      var rest := Wipe(s1, color, order[1..], waitMs);
      WipeFramesStep(strip, color, order, waitMs, rest.out);
      Rendered(rest.strip, [Show(s1), Sleep(waitMs)] + rest.out)
  }

  /** The frames of a wipe are its first frame followed by the frames of the rest of
      the wipe, started from the buffer with the first pixel written. */
  lemma WipeFramesStep<C>(strip: seq<C>, color: C, order: seq<int>, waitMs: int, restOut: seq<Output<C>>)
    requires InStrip(strip, order) && order != []
    requires |restOut| == 2 * (|order| - 1)
    requires forall k :: 0 <= k < |order| - 1 ==>
               restOut[2 * k] == Show(Paint(strip[order[0] := color], color, order[1..][..k + 1]))
               && restOut[2 * k + 1] == Sleep(waitMs)
    ensures var out := [Show(strip[order[0] := color]), Sleep(waitMs)] + restOut;
            forall k :: 0 <= k < |order| ==>
              out[2 * k] == Show(Paint(strip, color, order[..k + 1]))
              && out[2 * k + 1] == Sleep(waitMs)
  {
    var out := [Show(strip[order[0] := color]), Sleep(waitMs)] + restOut;
    forall k | 0 <= k < |order|
      ensures out[2 * k] == Show(Paint(strip, color, order[..k + 1]))
      ensures out[2 * k + 1] == Sleep(waitMs)
    {
      if k == 0 {
        assert order[..1][1..] == [];
      } else {
        assert out[2 * k] == restOut[2 * (k - 1)];
        assert out[2 * k + 1] == restOut[2 * (k - 1) + 1];
        assert order[..k + 1][1..] == order[1..][..k];
      }
    }
  }

  /** `colorWipe`: pixel by pixel in visiting order, one flush and one pause per pixel.
      Whatever the direction, the final buffer is the one `setColor` gives. */
  function ColorWipe<C>(strip: seq<C>, color: C, rng: seq<int>, direction: string, waitMs: int): (r: Rendered<C>)
    requires InStrip(strip, rng)
    ensures r.strip == SetColor(strip, color, rng)
    ensures |r.out| == 2 * (if rng == [] then |strip| else |rng|)
    ensures var order := Visit(|strip|, rng, direction);
            forall k :: 0 <= k < |order| ==>
              r.out[2 * k] == Show(Paint(strip, color, order[..k + 1]))
              && r.out[2 * k + 1] == Sleep(waitMs)
  {
    var order := Visit(|strip|, rng, direction);
    PaintSameMembers(strip, color, order, Targets(|strip|, rng));
    Wipe(strip, color, order, waitMs)
  }

  /** The k-th frame of a wipe shows the first k visited pixels in the new colour and
      every other pixel as it was. */
  lemma WipeFrame<C>(strip: seq<C>, color: C, rng: seq<int>, direction: string, waitMs: int, k: nat)
    requires InStrip(strip, rng)
    requires k < |Visit(|strip|, rng, direction)|
    ensures var order := Visit(|strip|, rng, direction);
            var frame := ColorWipe(strip, color, rng, direction, waitMs).out[2 * k].frame;
            |frame| == |strip|
            && forall i :: 0 <= i < |strip| ==>
                 frame[i] == if i in order[..k + 1] then color else strip[i]
  {
  }

  /** Setting a range twice in a row is the same as setting it once with the second colour. */
  lemma SetColorOverwrites<C>(strip: seq<C>, c1: C, c2: C, rng: seq<int>)
    requires InStrip(strip, rng)
    ensures SetColor(SetColor(strip, c1, rng), c2, rng) == SetColor(strip, c2, rng)
  {
  }
}
