/**
 * The terminal progress reporter (internal/progress/progress.go): a counter with
 * a start time and the time of the last redraw, the throttled redraw rule, and
 * the arithmetic of one progress line (percentage, 30-cell bar, ETA) and of
 * durations. Times are integer nanoseconds passed in by the caller; the lines
 * written to the terminal are collected in `output`.
 */
module Progress {
  import opened Wrappers
  import Text

  const Millisecond: int := 1_000_000
  const Second: int := 1_000_000_000
  const Minute: int := 60 * Second

  /** The redraw throttle: at most one redraw per 100 ms, except for the last item. */
  const Throttle: int := 100 * Millisecond

  const BarWidth: nat := 30

  // ---------------------------------------------------------------------
  // Durations
  // ---------------------------------------------------------------------

  /** How formatDuration presents a duration. */
  datatype DurationText =
    | UnderASecond
    | Seconds(s: int)
    | MinutesSeconds(m: int, s: int)
    | HoursMinutes(h: int, m: int)

  /**
   * The bucket of a duration: under a second; whole seconds below a minute;
   * minutes and seconds below an hour; otherwise hours and minutes, the seconds
   * dropped.
   */
  function Bucket(d: int): (b: DurationText)
    ensures b.UnderASecond? <==> d < Second
    ensures b.Seconds? ==> 1 <= b.s < 60 && b.s == d / Second
    ensures b.MinutesSeconds? ==>
      1 <= b.m < 60 && 0 <= b.s < 60 && b.m * 60 + b.s == d / Second
    ensures b.HoursMinutes? ==>
      1 <= b.h && 0 <= b.m < 60 && b.h * 60 + b.m == d / Minute
  {
    if d < Second then UnderASecond
    else
      var seconds := d / Second;
      if seconds < 60 then Seconds(seconds)
      else
        var minutes := seconds / 60;
        if minutes < 60 then MinutesSeconds(minutes, seconds % 60)
        else HoursMinutes(minutes / 60, minutes % 60)
  }

  function Render(b: DurationText): string
  {
    match b
    case UnderASecond => "< 1s"
    case Seconds(s) => Text.IntToString(s) + "s"
    case MinutesSeconds(m, s) => Text.IntToString(m) + "m " + Text.IntToString(s) + "s"
    case HoursMinutes(h, m) => Text.IntToString(h) + "h " + Text.IntToString(m) + "m"
  }

  /** formatDuration: only a duration under a second reads "< 1s"; every other starts with a digit. */
  function FormatDuration(d: int): (r: string)
    ensures r != []
    ensures r == "< 1s" <==> d < Second
    ensures d >= Second ==> Text.IsDigit(r[0])
  {
    var b := Bucket(d);
    match b
    case UnderASecond => "< 1s"
    case Seconds(s) => LeadingDigit(s, "s"); Render(b)
    case MinutesSeconds(m, s) => LeadingDigit(m, "m " + Text.IntToString(s) + "s"); Render(b)
    case HoursMinutes(h, m) => LeadingDigit(h, "h " + Text.IntToString(m) + "m"); Render(b)
  }

  lemma LeadingDigit(n: int, rest: string)
    requires n >= 1
    ensures (Text.IntToString(n) + rest)[0] == Text.IntToString(n)[0]
    ensures Text.IsDigit(Text.IntToString(n)[0])
  {
    assert Text.IntToString(n) == Text.NatToString(n);
  }

  /** Durations in a longer bucket are never shorter: the buckets are ordered by length. */
  lemma BucketsOrdered(d: int, e: int)
    requires d <= e
    ensures Bucket(e).UnderASecond? ==> Bucket(d).UnderASecond?
    ensures Bucket(d).HoursMinutes? ==> Bucket(e).HoursMinutes?
    ensures Bucket(d).MinutesSeconds? ==> Bucket(e).MinutesSeconds? || Bucket(e).HoursMinutes?
  {
    DivMonotone(d, e, Second);
    if d >= Second {
      DivMonotone(d / Second, e / Second, 60);
    }
  }

  lemma DivMonotone(a: int, b: int, k: int)
    requires a <= b && k > 0
    ensures a / k <= b / k
  {
    var p, q := a / k, b / k;
    assert p * k <= a && b < (q + 1) * k;
    if p > q {
      MulLeft(k, q + 1, p);
      assert false;
    }
  }

  // ---------------------------------------------------------------------
  // One progress line
  // ---------------------------------------------------------------------

  /** Go's `/` on integers, which truncates toward zero, for a positive divisor. */
  function Quot(a: int, b: int): int
    requires b > 0
  {
    if a >= 0 then a / b else -((-a) / b)
  }

  /** The quotient is rounded toward zero: down for a non-negative dividend, up for a negative one. */
  lemma QuotTruncates(a: int, b: int)
    requires b > 0
    ensures a >= 0 ==> 0 <= Quot(a, b) * b <= a < (Quot(a, b) + 1) * b
    ensures a < 0 ==> (Quot(a, b) - 1) * b < a <= Quot(a, b) * b <= 0
  {
    if a >= 0 {
      QuotientBounds(a, b);
    } else {
      QuotientBounds(-a, b);
      NegatedQuotient(-a, b);
    }
  }

  lemma QuotientBounds(n: int, b: int)
    requires n >= 0 && b > 0
    ensures 0 <= n / b && 0 <= (n / b) * b <= n < (n / b + 1) * b
  {
  }

  lemma NegatedQuotient(n: int, b: int)
    requires n >= 0 && b > 0 && 0 <= (n / b) * b <= n < (n / b + 1) * b
    ensures (-(n / b) - 1) * b < -n <= -(n / b) * b <= 0
  {
    var m := n / b;
    assert -m * b == -(m * b);
    assert (-m - 1) * b == -((m + 1) * b);
  }

  /** The percentage done, by integer division; 0 when there is nothing to do. */
  function Percent(current: nat, total: int): int
  {
    if total > 0 then current * 100 / total else 0
  }

  /** The percentage is the quotient of 100 times the count by the total, rounded down, or 0 without a total. */
  lemma PercentIsQuotient(current: nat, total: int)
    ensures total <= 0 ==> Percent(current, total) == 0
    ensures total > 0 ==>
      Percent(current, total) >= 0 &&
      Percent(current, total) * total <= current * 100 < (Percent(current, total) + 1) * total
  {
    if total > 0 {
      QuotientBounds(current * 100, total);
    }
  }

  /** A count within the total is at most 100 percent, and the whole total is exactly 100. */
  lemma PercentBounds(current: nat, total: int)
    requires total > 0 && current <= total
    ensures 0 <= Percent(current, total) <= 100
    ensures Percent(current, total) == 100 <==> current == total
  {
    var p := Percent(current, total);
    PercentIsQuotient(current, total);
    assert p * total <= current * 100 < (p + 1) * total;
    MulLeft(100, current, total);
    assert current * 100 <= total * 100;
    if p > 100 {
      MulLeft(total, 101, p);
      assert false;
    }
    if current < total {
      MulLeftStrict(100, current, total);
      if p >= 100 {
        MulLeft(total, 100, p);
        assert false;
      }
    } else {
      assert current * 100 == 100 * total;
      if p < 100 {
        MulLeft(total, p + 1, 100);
        assert false;
      }
    }
  }

  /** The number of full cells of the bar: 30 * current / total, clamped to the width. */
  function Filled(current: nat, total: int): (f: int)
    requires total > 0
    ensures 0 <= f <= BarWidth
    ensures f == BarWidth <==> current >= total
  {
    var filled := BarWidth * current / total;
    ScaledReachesWidth(current, total);
    if filled > BarWidth then BarWidth else filled
  }

  /** Short of the full width, the bar shows 30 * current / total cells, rounded down. */
  lemma FilledIsQuotient(current: nat, total: int)
    requires total > 0
    ensures Filled(current, total) < BarWidth ==>
      Filled(current, total) * total <= BarWidth * current < (Filled(current, total) + 1) * total
  {
    QuotientBounds(BarWidth * current, total);
  }

  lemma ScaledReachesWidth(current: nat, total: int)
    requires total > 0
    ensures BarWidth * current / total >= BarWidth <==> current >= total
  {
    var q := BarWidth * current / total;
    QuotientBounds(BarWidth * current, total);
    if current >= total {
      MulLeft(BarWidth, total, current);
      if q < BarWidth {
        MulLeft(total, q + 1, BarWidth);
        assert false;
      }
    } else {
      MulLeftStrict(BarWidth, current, total);
      if q >= BarWidth {
        MulLeft(total, BarWidth, q);
        assert false;
      }
    }
  }

  function Repeat(c: char, n: nat): (s: string)
    ensures |s| == n && forall i :: 0 <= i < n ==> s[i] == c
  {
    if n == 0 then [] else [c] + Repeat(c, n - 1)
  }

  const FullCell: char := '█'
  const EmptyCell: char := '░'

  /** The bar: always 30 cells, the first `filled` of them full and the rest empty. */
  function Bar(filled: int): (bar: string)
    requires 0 <= filled <= BarWidth
    ensures |bar| == BarWidth
    ensures forall i :: 0 <= i < |bar| ==> (bar[i] == FullCell <==> i < filled)
  {
    Repeat(FullCell, filled) + Repeat(EmptyCell, BarWidth - filled)
  }

  /** The estimated time left: the average time per item so far times the items left. */
  function Remaining(current: nat, total: int, elapsed: int): int
    requires current > 0
  {
    (total - current) * Quot(elapsed, current)
  }

  /** The ETA: "calculating..." before the first item, then the remaining time or "almost done". */
  function Eta(current: nat, total: int, elapsed: int): (eta: string)
    ensures current == 0 <==> eta == "calculating..."
    ensures current > 0 && Remaining(current, total, elapsed) > 0 ==>
      eta == FormatDuration(Remaining(current, total, elapsed))
    ensures current > 0 && Remaining(current, total, elapsed) <= 0 ==> eta == "almost done"
  {
    if current == 0 then "calculating..."
    else
      var remaining := Remaining(current, total, elapsed);
      if remaining > 0 then
        assert FormatDuration(remaining)[0] == '<' || Text.IsDigit(FormatDuration(remaining)[0]);
        FormatDuration(remaining)
      else "almost done"
  }

  /** Once the count reaches the total (and time has not run backwards) the ETA is "almost done". */
  lemma EtaAlmostDone(current: nat, total: int, elapsed: int)
    requires current > 0 && current >= total && elapsed >= 0
    ensures Eta(current, total, elapsed) == "almost done"
  {
    var avg := Quot(elapsed, current);
    QuotTruncates(elapsed, current);
    assert avg >= 0;
    assert (total - current) * avg <= 0 by {
      NonPositiveTimesNonNegative(total - current, avg);
    }
  }

  lemma NonPositiveTimesNonNegative(a: int, b: int)
    requires a <= 0 && b >= 0
    ensures a * b <= 0
  {
  }

  /**
   * The estimate never exceeds the proportional one, elapsed * left / done, and
   * falls short of it by less than one nanosecond per item left.
   */
  lemma RemainingEstimate(current: nat, total: int, elapsed: int)
    requires 0 < current < total && elapsed >= 0
    ensures Remaining(current, total, elapsed) * current <= elapsed * (total - current)
    ensures elapsed * (total - current) < (Remaining(current, total, elapsed) + (total - current)) * current
  {
    var avg, left := Quot(elapsed, current), total - current;
    QuotTruncates(elapsed, current);
    assert avg * current <= elapsed < (avg + 1) * current;
    calc {
      Remaining(current, total, elapsed) * current;
      left * (avg * current);
    <= { MulLeft(left, avg * current, elapsed); }
      left * elapsed;
    }
    calc {
      left * elapsed;
    < { MulLeftStrict(left, elapsed, (avg + 1) * current); }
      left * ((avg + 1) * current);
      (left * avg + left) * current;
    }
  }

  lemma MulLeft(k: int, a: int, b: int)
    requires k >= 0 && a <= b
    ensures k * a <= k * b
  {
  }

  lemma MulLeftStrict(k: int, a: int, b: int)
    requires k > 0 && a < b
    ensures k * a < k * b
  {
  }

  /** The content of one redrawn progress line. */
  datatype Frame = Frame(bar: string, percent: int, current: nat, total: int, eta: string)

  function FrameAt(current: nat, total: int, elapsed: int): (f: Frame)
    requires total > 0
    ensures f.current == current && f.total == total
    ensures |f.bar| == BarWidth
  {
    Frame(Bar(Filled(current, total)), Percent(current, total), current, total, Eta(current, total, elapsed))
  }

  /**
   * The throttle: redraw when no redraw happened yet (Go's zero time lies far in
   * the past), when more than 100 ms passed since the last one, or on the last item.
   */
  predicate ShouldRedraw(lastDraw: Option<int>, now: int, current: nat, total: int)
  {
    lastDraw.None? || now - lastDraw.value > Throttle || current == total
  }

  /**
   * The ETA part of a redraw, computed step by step as the reporter's print
   * does (progress.go:139-148). Draw uses this method, and Eta is its
   * specification. Keeping the step-by-step computation in its own method
   * keeps Draw's proof small.
   */
  method EtaText(current: nat, total: int, elapsed: int) returns (eta: string)
    ensures eta == Eta(current, total, elapsed)
  {
    eta := "calculating...";
    if current > 0 {
      var avgTime := Quot(elapsed, current);
      var remaining := (total - current) * avgTime;
      if remaining > 0 {
        eta := FormatDuration(remaining);
      } else {
        eta := "almost done";
      }
    }
  }

  /**
   * The bar part of a redraw: the full cells, clamped to the width, then the
   * empty ones, as the reporter's print does (progress.go:151-156). Draw uses
   * this method, and Bar of Filled is its specification. Keeping it separate
   * keeps Draw's proof small.
   */
  method BarText(current: nat, total: int) returns (bar: string)
    requires total > 0
    ensures bar == Bar(Filled(current, total))
  {
    var filled := BarWidth * current / total;
    if filled > BarWidth {
      filled := BarWidth;
    }
    bar := Repeat(FullCell, filled) + Repeat(EmptyCell, BarWidth - filled);
  }

  // ---------------------------------------------------------------------
  // The reporter
  // ---------------------------------------------------------------------

  /**
   * A line written to the terminal. The progress and completion lines are kept
   * as the numbers they are drawn from: a progress line shows
   * FrameAt(current, total, elapsed), and the completion line shows the elapsed
   * time as FormatDuration does.
   */
  datatype Line =
    | ItemLine(current: nat, total: int, message: string)   // "[i/n] message" in verbose mode
    | BarLine(current: nat, total: int, elapsed: int)        // the progress line, redrawn in place
    | CompletedLine(total: int, elapsed: int)                // "Completed n commits in <duration>"
    | ErrorLine(message: string)

  /** The item lines among the lines written, in the order they were written. */
  function ItemLines(lines: seq<Line>): (items: seq<Line>)
    ensures |items| <= |lines|
    ensures forall i :: 0 <= i < |items| ==> items[i].ItemLine?
    decreases |lines|
  {
    if lines == [] then []
    else
      var last := lines[|lines| - 1];
      ItemLines(lines[..|lines| - 1]) + (if last.ItemLine? then [last] else [])
  }

  lemma ItemLinesSnoc(lines: seq<Line>, l: Line)
    ensures ItemLines(lines + [l]) == ItemLines(lines) + (if l.ItemLine? then [l] else [])
  {
    assert (lines + [l])[..|lines|] == lines;
  }

  /**
   * What one Increment adds to the item lines: its own item line when it writes
   * one (verbose, with a message), otherwise nothing, since a redraw writes only
   * a progress line.
   */
  lemma ItemLinesOfStep(before: seq<Line>, after: seq<Line>, item: Line, bar: Line, itemWritten: bool)
    requires item.ItemLine? && bar.BarLine?
    requires itemWritten ==> after == before + [item, bar]
    requires !itemWritten ==> after == before || after == before + [bar]
    ensures ItemLines(after) == ItemLines(before) + (if itemWritten then [item] else [])
  {
    if itemWritten {
      assert after == (before + [item]) + [bar];
      ItemLinesSnoc(before + [item], bar);
      ItemLinesSnoc(before, item);
    } else if after != before {
      ItemLinesSnoc(before, bar);
    }
  }

  class Reporter {
    const total: int
    const quiet: bool
    const verbose: bool
    var current: nat
    var startTime: int
    var lastDraw: Option<int>
    var output: seq<Line>

    /** New: a reporter that has counted nothing and drawn nothing; its clock starts now. */
    constructor (total: int, quiet: bool, verbose: bool, now: int)
      ensures this.total == total && this.quiet == quiet && this.verbose == verbose
      ensures current == 0 && startTime == now && lastDraw == None && output == []
    {
      this.total := total;
      this.quiet := quiet;
      this.verbose := verbose;
      current := 0;
      startTime := now;
      lastDraw := None;
      output := [];
    }

    /** The private `print`: redraw the progress line and remember when. */
    method Draw(now: int) returns (shown: Frame)
      requires total > 0
      modifies this
      ensures current == old(current) && startTime == old(startTime)
      ensures lastDraw == Some(now)
      ensures shown == FrameAt(current, total, now - startTime)
      ensures output == old(output) + [BarLine(current, total, now - startTime)]
    {
      var elapsed := now - startTime;
      lastDraw := Some(now);
      var percent := 0;
      if total > 0 {
        percent := current * 100 / total;
      }
      var eta := EtaText(current, total, elapsed);
      var bar := BarText(current, total);
      shown := Frame(bar, percent, current, total, eta);
      output := output + [BarLine(current, total, elapsed)];
    }

    /** Start: restart the clock and draw the initial line; nothing at all when quiet. */
    method Start(now: int)
      requires !quiet ==> total > 0
      modifies this
      ensures current == old(current)
      ensures quiet ==> startTime == old(startTime) && lastDraw == old(lastDraw) && output == old(output)
      ensures !quiet ==>
        startTime == now && lastDraw == Some(now) &&
        output == old(output) + [BarLine(current, total, 0)]
    {
      if quiet {
        return;
      }
      startTime := now;
      var _ := Draw(now);
    }

    /**
     * Increment: count one more item, whatever the settings; then, unless quiet,
     * write the item's line and redraw (verbose with a message), or redraw only
     * when the throttle allows it.
     */
    method Increment(message: string, now: int)
      requires !quiet ==> total > 0
      modifies this
      ensures current == old(current) + 1 && startTime == old(startTime)
      ensures !quiet && current == total ==> lastDraw == Some(now)
      ensures quiet ==> lastDraw == old(lastDraw) && output == old(output)
      ensures !quiet && verbose && message != "" ==>
        lastDraw == Some(now) &&
        output == old(output) + [ItemLine(current, total, message), BarLine(current, total, now - startTime)]
      ensures !quiet && !(verbose && message != "") && ShouldRedraw(old(lastDraw), now, current, total) ==>
        lastDraw == Some(now) && output == old(output) + [BarLine(current, total, now - startTime)]
      ensures !quiet && !(verbose && message != "") && !ShouldRedraw(old(lastDraw), now, current, total) ==>
        lastDraw == old(lastDraw) && output == old(output)
    {
      current := current + 1;
      if quiet {
        return;
      }
      if verbose && message != "" {
        output := output + [ItemLine(current, total, message)];
        var _ := Draw(now);
      } else {
        var shouldDraw := lastDraw.None? || now - lastDraw.value > Throttle || current == total;
        if shouldDraw {
          var _ := Draw(now);
        }
      }
    }

    /** Finish: the completion line, which reports the total and the time since the start. */
    method Finish(now: int)
      modifies this
      ensures current == old(current) && startTime == old(startTime) && lastDraw == old(lastDraw)
      ensures quiet ==> output == old(output)
      ensures !quiet ==> output == old(output) + [CompletedLine(total, now - startTime)]
    {
      if quiet {
        return;
      }
      var elapsed := now - startTime;
      output := output + [CompletedLine(total, elapsed)];
    }

    /** Error: an error line, unless quiet. */
    method Error(message: string)
      modifies this
      ensures current == old(current) && startTime == old(startTime) && lastDraw == old(lastDraw)
      ensures quiet ==> output == old(output)
      ensures !quiet ==> output == old(output) + [ErrorLine(message)]
    {
      if quiet {
        return;
      }
      output := output + [ErrorLine(message)];
    }
  }

}
