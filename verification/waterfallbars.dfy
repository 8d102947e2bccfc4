/** The waterfall chart's drawing decomposition: each bar gets a transparent
    base and a visible total, increase or decrease segment, from a running
    total of the change bars. */
module WaterfallBars {
  import opened Waterfall

  /** A bar with its drawing segments. */
  datatype Drawn = Drawn(bar: Bar, base: real, totalVal: real, increaseVal: real, decreaseVal: real)

  /** Reference: the running total before position `i`, the sum of the
      change bars before it (totals do not move it). */
  function RunBefore(data: seq<Bar>, i: nat): real
    requires i <= |data|
  {
    if i == 0 then 0.0
    else RunBefore(data, i - 1) + (if data[i - 1].isTotal then 0.0 else data[i - 1].value)
  }

  function Min(x: real, y: real): real {
    if x <= y then x else y
  }

  function Max(x: real, y: real): real {
    if x <= y then y else x
  }

  /** How one bar is drawn from the running total before it. */
  predicate DrawnFrom(d: Drawn, b: Bar, before: real) {
    && d.bar == b
    && d.increaseVal >= 0.0 && d.decreaseVal >= 0.0
    && (d.increaseVal == 0.0 || d.decreaseVal == 0.0)
    && (b.isTotal ==> d.totalVal == b.value && d.base == 0.0 && d.increaseVal == 0.0 && d.decreaseVal == 0.0)
    && (!b.isTotal ==>
          && d.totalVal == 0.0
          && d.base == Min(before, before + b.value)
          && d.base + d.increaseVal + d.decreaseVal == Max(before, before + b.value)
          && (b.value >= 0.0 ==> d.increaseVal == b.value)
          && (b.value < 0.0 ==> d.decreaseVal == -b.value))
  }

  /** One bar drawn from the running total before it. */
  function Draw(b: Bar, before: real): (d: Drawn)
    ensures DrawnFrom(d, b, before)
  {
    if b.isTotal then Drawn(b, 0.0, b.value, 0.0, 0.0)
    else if b.value >= 0.0 then Drawn(b, before, 0.0, b.value, 0.0)
    else Drawn(b, before + b.value, 0.0, 0.0, -b.value)
  }

  /** `processedData`: one drawn bar per input bar, in order, each drawn
      from the running total of the change bars before it. */
  method Process(data: seq<Bar>) returns (out: seq<Drawn>)
    ensures |out| == |data|
    ensures forall i :: 0 <= i < |data| ==> DrawnFrom(out[i], data[i], RunBefore(data, i))
  {
    var running := 0.0;
    out := [];
    var i := 0;
    while i < |data|
      invariant 0 <= i <= |data|
      invariant |out| == i
      invariant running == RunBefore(data, i)
      invariant forall j :: 0 <= j < i ==> out[j] == Draw(data[j], RunBefore(data, j))
    {
      var item := data[i];
      var d := Draw(item, running);
      forall j | 0 <= j < i + 1 ensures (out + [d])[j] == Draw(data[j], RunBefore(data, j)) {
        if j < i {
          assert (out + [d])[j] == out[j];
        } else {
          assert (out + [d])[j] == d;
        }
      }
      out := out + [d];
      var next := running + (if item.isTotal then 0.0 else item.value);
      assert next == RunBefore(data, i + 1);
      running := next;
      i := i + 1;
    }
    forall j | 0 <= j < |data| ensures DrawnFrom(out[j], data[j], RunBefore(data, j)) {
      assert out[j] == Draw(data[j], RunBefore(data, j));
    }
  }
}
