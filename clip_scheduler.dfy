/** The back-to-back schedule builder of script.py: `schedule_events(data,
    start, end)` lays the clips of `data` out one after another, each one
    second after the previous one ends, cycling through `data`, until the
    next clip would pass the end of the range. Times and durations are
    integer microseconds; the random draws and the date rendering are
    parameters. */
module ClipScheduler {
  import opened Wrappers
  import opened Schedules

  /** An entry of `data`: its `file_name` and its `duration`. */
  datatype Clip = Clip(fileName: string, duration: nat)

  /** A placed clip before its identifiers are drawn. */
  datatype Slot = Slot(fileName: string, start: int, end: int)

  /** An entry of the output `events` list. */
  datatype Placed = Placed(targetId: int, fileName: string, start: int, end: int, color: string)

  /** The one day record of the output. */
  datatype DayRecord = DayRecord(date: string, events: seq<Placed>, id: int)

  /** The `ValueError` raised for a range too short for the clips. */
  datatype ScheduleError = TooShort

  /** `sum(event['duration'] for event in data)` */
  function Total(data: seq<Clip>): (t: nat)
    ensures data != [] ==> t >= data[0].duration
  {
    if data == [] then 0 else data[0].duration + Total(data[1..])
  }

  /** The total of two lists laid end to end is the sum of their totals. */
  lemma {:induction false} TotalAppend(a: seq<Clip>, b: seq<Clip>)
    ensures Total(a + b) == Total(a) + Total(b)
  {
    if a == [] {
      assert a + b == b;
    } else {
      assert (a + b)[0] == a[0] && (a + b)[1..] == a[1..] + b;
      TotalAppend(a[1..], b);
    }
  }

  // ---------------------------------------------------------------------
  // The layout

  /** The slots laid from clip `i` on with the cursor at `cur`. A clip is
      placed when `cur` plus its duration does not pass `end`; it starts
      one second after `cur` and the cursor moves to its end. After the
      last clip the pass starts again from the first, unless the cursor has
      reached `end`. */
  function Lay(data: seq<Clip>, i: nat, cur: int, end: int): seq<Slot>
    requires data != [] && i <= |data| && cur <= end + Second
    decreases end + Second - cur, if i == |data| then 1 else 0
  {
    if i == |data| then
      if cur >= end then [] else Lay(data, 0, cur, end)
    else if cur + data[i].duration > end then []
    else
      var s := cur + Second;
      var e := s + data[i].duration;
      [Slot(data[i].fileName, s, e)] + Lay(data, i + 1, e, end)
  }

  /** The slots of a whole schedule; an empty `data` places nothing. */
  function Layout(data: seq<Clip>, start: int, end: int): seq<Slot>
    requires start <= end
  {
    if data == [] then [] else Lay(data, 0, start, end)
  }

  /** The cursor where a layout from `cur` leaves off. */
  function LastEnd(slots: seq<Slot>, cur: int): int {
    if slots == [] then cur else slots[|slots| - 1].end
  }

  /** The cursor before slot `k`: the range start for the first slot, the
      previous slot's end for the others. */
  function Before(slots: seq<Slot>, cur: int, k: nat): int
    requires k <= |slots|
  {
    if k == 0 then cur else slots[k - 1].end
  }

  /** Slot `k` of `r`, a layout from clip `i` with the cursor at `cur`, is
      clip `(i + k) mod |data|`, placed one second after the cursor before
      it and lasting the clip's duration, and that clip fitted before
      `end`. */
  predicate PlacedAt(data: seq<Clip>, i: nat, cur: int, end: int, r: seq<Slot>, k: nat)
    requires data != [] && k < |r|
  {
    var c := data[(i + k) % |data|];
    var b := Before(r, cur, k);
    r[k] == Slot(c.fileName, b + Second, b + Second + c.duration) && b + c.duration <= end
  }

  /** Every slot of a layout is placed as `PlacedAt` says. */
  lemma {:induction false} LaySlots(data: seq<Clip>, i: nat, cur: int, end: int)
    requires data != [] && i <= |data| && cur <= end + Second
    ensures forall k :: 0 <= k < |Lay(data, i, cur, end)| ==> PlacedAt(data, i, cur, end, Lay(data, i, cur, end), k)
    decreases end + Second - cur, if i == |data| then 1 else 0
  {
    var r := Lay(data, i, cur, end);
    var n := |data|;
    if i == n {
      if cur < end {
        LaySlots(data, 0, cur, end);
        forall k | 0 <= k < |r| ensures PlacedAt(data, i, cur, end, r, k) {
          assert PlacedAt(data, 0, cur, end, r, k);
          ShiftMod(k, n);
        }
      }
    } else if cur + data[i].duration <= end {
      var e := cur + Second + data[i].duration;
      var t := Lay(data, i + 1, e, end);
      LaySlots(data, i + 1, e, end);
      assert r == [Slot(data[i].fileName, cur + Second, e)] + t;
      forall k | 0 <= k < |r| ensures PlacedAt(data, i, cur, end, r, k) {
        if k == 0 {
          ModSmall(i, n);
        } else {
          assert PlacedAt(data, i + 1, e, end, t, k - 1);
          assert r[k] == t[k - 1];
          assert Before(r, cur, k) == Before(t, e, k - 1);
        }
      }
    }
  }

  /** `a % n` is `r` when `a` is `q` times `n` plus `r`, with `r` below `n`. */
  lemma ModUnique(a: int, n: int, q: int, r: int)
    requires n > 0 && a == q * n + r && 0 <= r < n
    ensures a % n == r
  {
    var d := q - a / n;
    assert d * n == a % n - r;
    assert d >= 1 ==> d * n >= n;
    assert d <= -1 ==> d * n <= -n;
  }

  lemma ModSmall(i: int, n: int)
    requires 0 <= i < n
    ensures i % n == i
  {
    ModUnique(i, n, 0, i);
  }

  lemma ShiftMod(k: nat, n: nat)
    requires n > 0
    ensures (n + k) % n == k % n
  {
    var q := k / n;
    assert n + k == (q + 1) * n + k % n;
    ModUnique(n + k, n, q + 1, k % n);
  }

  /** Where a layout stops: either the next clip in the cycle does not fit
      between the cursor and `end`, or a pass has ended with the cursor at
      or after `end`. */
  predicate Stopped(data: seq<Clip>, c: int, m: nat, end: int)
    requires m < |data|
  {
    c + data[m].duration > end || (m == 0 && c >= end)
  }

  lemma {:induction false} LayStops(data: seq<Clip>, i: nat, cur: int, end: int)
    requires data != [] && i <= |data| && cur <= end + Second
    ensures Stopped(data, LastEnd(Lay(data, i, cur, end), cur), (i + |Lay(data, i, cur, end)|) % |data|, end)
    decreases end + Second - cur, if i == |data| then 1 else 0
  {
    if i == |data| && cur < end {
      LayStops(data, 0, cur, end);
      StopsAtWrap(data, cur, end);
    } else if i < |data| && cur + data[i].duration <= end {
      var e := cur + Second + data[i].duration;
      LayStops(data, i + 1, e, end);
      LayStep(data, i, cur, end, e);
      StopsAfterSlot(data, i, end, Lay(data, i, cur, end), Lay(data, i + 1, e, end), cur, e);
    } else {
      StopsAtOnce(data, i, cur, end);
    }
  }

  /** The stopping step of `LayStops`: nothing is laid from here. */
  lemma StopsAtOnce(data: seq<Clip>, i: nat, cur: int, end: int)
    requires data != [] && i <= |data| && cur <= end + Second
    requires if i == |data| then cur >= end else cur + data[i].duration > end
    ensures Stopped(data, LastEnd(Lay(data, i, cur, end), cur), (i + |Lay(data, i, cur, end)|) % |data|, end)
  {
    assert Lay(data, i, cur, end) == [];
    if i == |data| {
      ShiftMod(0, |data|);
    } else {
      ModSmall(i, |data|);
    }
  }

  /** The wrap-around step of `LayStops`: starting again from the first clip. */
  lemma StopsAtWrap(data: seq<Clip>, cur: int, end: int)
    requires data != [] && cur < end
    requires Stopped(data, LastEnd(Lay(data, 0, cur, end), cur), |Lay(data, 0, cur, end)| % |data|, end)
    ensures Stopped(data, LastEnd(Lay(data, |data|, cur, end), cur),
                    (|data| + |Lay(data, |data|, cur, end)|) % |data|, end)
  {
    var r := Lay(data, |data|, cur, end);
    assert r == Lay(data, 0, cur, end);
    ShiftMod(|r|, |data|);
  }

  /** The placing step of `LayStops`: `r` is the slot for clip `i`, ending
      at `e`, followed by `t`. */
  lemma StopsAfterSlot(data: seq<Clip>, i: nat, end: int, r: seq<Slot>, t: seq<Slot>, cur: int, e: int)
    requires data != [] && i < |data|
    requires r == [Slot(data[i].fileName, cur + Second, e)] + t
    requires Stopped(data, LastEnd(t, e), (i + 1 + |t|) % |data|, end)
    ensures Stopped(data, LastEnd(r, cur), (i + |r|) % |data|, end)
  {
    assert LastEnd(r, cur) == LastEnd(t, e);
    assert i + |r| == i + 1 + |t|;
  }

  /** Every slot lies within one second after the range: it starts after
      `cur` and ends no later than `end` plus one second. */
  lemma SlotBounds(data: seq<Clip>, cur: int, end: int)
    requires data != [] && cur <= end
    ensures var r := Lay(data, 0, cur, end);
            forall k :: 0 <= k < |r| ==> cur < r[k].start <= r[k].end <= end + Second
  {
    var r := Lay(data, 0, cur, end);
    LaySlots(data, 0, cur, end);
    forall j | 0 <= j < |r| ensures r[j].start == Before(r, cur, j) + Second && r[j].start <= r[j].end
                                  && Before(r, cur, j) + Second + data[j % |data|].duration <= end + Second {
      assert PlacedAt(data, 0, cur, end, r, j);
    }
    forall k | 0 <= k < |r| ensures cur < r[k].start <= r[k].end <= end + Second {
      Ascending(r, cur, k);
      assert PlacedAt(data, 0, cur, end, r, k);
    }
  }

  /** In a layout every cursor is at least the one before it plus a second. */
  lemma {:induction false} Ascending(r: seq<Slot>, cur: int, k: nat)
    requires forall j :: 0 <= j < |r| ==> r[j].start == Before(r, cur, j) + Second && r[j].start <= r[j].end
    requires k < |r|
    ensures cur + Second <= r[k].start
  {
    if k > 0 {
      Ascending(r, cur, k - 1);
    }
  }

  // ---------------------------------------------------------------------
  // The loop as written, one pass of `while` at a time

  /** One pass of the `while` body from clip `i`: the slots it places, the
      cursor after it, and whether the `while` goes round again. A clip
      that does not fit sets the cursor to `end` and leaves both loops;
      after the last clip the loop leaves when the cursor has reached
      `end`. */
  function Round(data: seq<Clip>, i: nat, cur: int, end: int): (seq<Slot>, int, bool)
    requires i <= |data|
    decreases |data| - i
  {
    if i == |data| then ([], cur, cur < end)
    else if cur + data[i].duration > end then ([], end, false)
    else
      var s := cur + Second;
      var e := s + data[i].duration;
      var rest := Round(data, i + 1, e, end);
      ([Slot(data[i].fileName, s, e)] + rest.0, rest.1, rest.2)
  }

  /** The state after `k` passes: the slots so far, the cursor, and whether
      the loop is still going. */
  function Rounds(data: seq<Clip>, cur: int, end: int, k: nat): (seq<Slot>, int, bool) {
    if k == 0 then ([], cur, cur <= end)
    else
      var before := Rounds(data, cur, end, k - 1);
      if !before.2 then before
      else
        var pass := Round(data, 0, before.1, end);
        (before.0 + pass.0, pass.1, pass.2)
  }

  /** With no clips and a range of positive length, no pass makes progress:
      after any number of passes nothing is placed, the cursor is where it
      started and the loop goes round again, so `schedule_events` never
      returns. */
  lemma {:induction false} EmptyDataNeverStops(start: int, end: int, k: nat)
    requires start < end
    ensures Rounds([], start, end, k) == ([], start, true)
  {
    if k > 0 {
      EmptyDataNeverStops(start, end, k - 1);
      var none: seq<Clip> := [];
      assert Round(none, 0, start, end) == ([], start, true);
      var nothing: seq<Slot> := [];
      assert nothing + nothing == nothing;
    }
  }

  /** The loop goes round again after a pass exactly when the cursor it
      leaves is before `end`, and then the pass has moved it forward. */
  lemma {:induction false} RoundGoesOn(data: seq<Clip>, i: nat, cur: int, end: int)
    requires i <= |data|
    ensures Round(data, i, cur, end).2 <==> Round(data, i, cur, end).1 < end
    ensures Round(data, i, cur, end).2 && i < |data| ==> cur < Round(data, i, cur, end).1
    decreases |data| - i
  {
    if i < |data| && cur + data[i].duration <= end {
      RoundGoesOn(data, i + 1, cur + Second + data[i].duration, end);
    }
  }

  /** For clips to cycle through, one pass is a prefix of the layout: the
      layout from `cur` is the pass's slots followed by the layout from the
      cursor the pass leaves, when the loop goes round again. */
  lemma {:induction false} RoundIsLayPrefix(data: seq<Clip>, i: nat, cur: int, end: int)
    requires data != [] && i <= |data| && cur <= end + Second
    ensures Round(data, i, cur, end).2 ==> Round(data, i, cur, end).1 < end
    ensures Lay(data, i, cur, end) == Round(data, i, cur, end).0 +
              (if Round(data, i, cur, end).2 then Lay(data, 0, Round(data, i, cur, end).1, end) else [])
    decreases |data| - i
  {
    RoundGoesOn(data, i, cur, end);
    if i == |data| {
      PrefixAtWrap(data, cur, end);
    } else if cur + data[i].duration > end {
      PrefixWhenNoFit(data, i, cur, end);
    } else {
      var e := cur + Second + data[i].duration;
      RoundIsLayPrefix(data, i + 1, e, end);
      PrefixStep(data, i, cur, end, e);
    }
  }

  lemma PrefixAtWrap(data: seq<Clip>, cur: int, end: int)
    requires data != [] && cur <= end + Second
    ensures Round(data, |data|, cur, end) == ([], cur, cur < end)
    ensures Lay(data, |data|, cur, end) == if cur < end then Lay(data, 0, cur, end) else []
  {
  }

  lemma PrefixWhenNoFit(data: seq<Clip>, i: nat, cur: int, end: int)
    requires i < |data| && cur <= end + Second && cur + data[i].duration > end
    ensures Round(data, i, cur, end) == ([], end, false)
    ensures Lay(data, i, cur, end) == []
  {
  }

  lemma PrefixStep(data: seq<Clip>, i: nat, cur: int, end: int, e: int)
    requires i < |data| && cur + data[i].duration <= end && e == cur + Second + data[i].duration
    requires Round(data, i + 1, e, end).2 ==> Round(data, i + 1, e, end).1 < end
    requires Lay(data, i + 1, e, end) == Round(data, i + 1, e, end).0 +
               (if Round(data, i + 1, e, end).2 then Lay(data, 0, Round(data, i + 1, e, end).1, end) else [])
    ensures Round(data, i, cur, end).1 == Round(data, i + 1, e, end).1
    ensures Round(data, i, cur, end).2 == Round(data, i + 1, e, end).2
    ensures Lay(data, i, cur, end) == Round(data, i, cur, end).0 +
              (if Round(data, i + 1, e, end).2 then Lay(data, 0, Round(data, i + 1, e, end).1, end) else [])
  {
    var slot := Slot(data[i].fileName, cur + Second, e);
    var rest := Round(data, i + 1, e, end);
    var tail := if rest.2 then Lay(data, 0, rest.1, end) else [];
    RoundStep(data, i, cur, end, e);
    LayStep(data, i, cur, end, e);
    AppendAssoc([slot], rest.0, tail);
  }

  // ---------------------------------------------------------------------
  // Identifiers and colours

  /** `random.randint(lo, hi)` drawing `raw` from the random source. */
  function RandInt(lo: int, hi: int, raw: nat): (x: int)
    requires lo <= hi
    ensures lo <= x <= hi
  {
    lo + raw % (hi - lo + 1)
  }

  /** Every value of the range can be drawn. */
  lemma RandIntCovers(lo: int, hi: int, x: int)
    requires lo <= x <= hi
    ensures RandInt(lo, hi, (x - lo) as nat) == x
  {
  }

  function Pow10(k: nat): (p: nat)
    ensures p >= 1
  {
    if k == 0 then 1 else 10 * Pow10(k - 1)
  }

  /** `10**17` and `10**18 - 1` */
  const IdLow: int := 100_000_000_000_000_000
  const IdHigh: int := 999_999_999_999_999_999

  /** `generate_unique_numeric_id()` */
  function NumericId(raw: nat): (id: int)
    ensures IdLow <= id <= IdHigh
  {
    RandInt(IdLow, IdHigh, raw)
  }

  lemma IdRange()
    ensures IdLow == Pow10(17) && IdHigh == Pow10(18) - 1
  {
    assert Pow10(3) == 1000;
    assert Pow10(6) == 1000 * Pow10(3);
    assert Pow10(9) == 1000 * Pow10(6);
    assert Pow10(12) == 1000 * Pow10(9);
    assert Pow10(15) == 1000 * Pow10(12);
    assert Pow10(18) == 1000 * Pow10(15);
  }

  function DigitChar(d: nat): (c: char)
    requires d < 10
    ensures '0' <= c <= '9'
  {
    ('0' as int + d) as char
  }

  /** `str(n)` for a natural number. */
  function Decimal(n: nat): (s: string)
    ensures s != [] && forall i :: 0 <= i < |s| ==> '0' <= s[i] <= '9'
  {
    if n < 10 then [DigitChar(n)] else Decimal(n / 10) + [DigitChar(n % 10)]
  }

  /** A number from `10^(k-1)` to below `10^k` has `k` decimal digits, the
      first of them not a zero. */
  lemma {:induction false} DecimalLength(n: nat, k: nat)
    requires k >= 1 && Pow10(k - 1) <= n < Pow10(k)
    ensures |Decimal(n)| == k && Decimal(n)[0] != '0'
  {
    assert Pow10(1) == 10;
    assert k >= 2 ==> Pow10(k - 1) == 10 * Pow10(k - 2);
    if n >= 10 {
      assert Pow10(k) == 10 * Pow10(k - 1);
      DecimalLength(n / 10, k - 1);
    }
  }

  /** Every identifier has exactly 18 digits. */
  lemma IdHasEighteenDigits(raw: nat)
    ensures |Decimal(NumericId(raw))| == 18 && Decimal(NumericId(raw))[0] != '0'
  {
    IdRange();
    DecimalLength(NumericId(raw), 18);
  }

  /** An upper-case hexadecimal digit. */
  predicate IsHexDigit(c: char) {
    '0' <= c <= '9' || 'A' <= c <= 'F'
  }

  function HexDigit(d: nat): (c: char)
    requires d < 16
    ensures IsHexDigit(c)
  {
    if d < 10 then ('0' as int + d) as char else ('A' as int + d - 10) as char
  }

  function HexValue(c: char): (d: nat)
    requires IsHexDigit(c)
    ensures d < 16
  {
    if c <= '9' then c as int - '0' as int else c as int - 'A' as int + 10
  }

  lemma HexDigitRoundTrip(d: nat)
    requires d < 16
    ensures HexValue(HexDigit(d)) == d
  {
  }

  /** `f"{b:02X}"` for a byte. */
  function Hex2(b: nat): (s: string)
    requires b < 256
    ensures |s| == 2 && IsHexDigit(s[0]) && IsHexDigit(s[1])
  {
    [HexDigit(b / 16), HexDigit(b % 16)]
  }

  /** `generate_random_color()` from three draws. */
  function Color(r: nat, g: nat, b: nat): (c: string)
    ensures |c| == 7 && c[0] == '#'
    ensures forall i :: 1 <= i < 7 ==> IsHexDigit(c[i])
  {
    "#" + Hex2(RandInt(0, 255, r)) + Hex2(RandInt(0, 255, g)) + Hex2(RandInt(0, 255, b))
  }

  function ByteOf(s: string, i: nat): nat
    requires i + 1 < |s| && IsHexDigit(s[i]) && IsHexDigit(s[i + 1])
  {
    16 * HexValue(s[i]) + HexValue(s[i + 1])
  }

  /** Reading the colour back gives the three bytes drawn. */
  lemma ColorRoundTrip(r: nat, g: nat, b: nat)
    ensures var c := Color(r, g, b);
            && ByteOf(c, 1) == RandInt(0, 255, r)
            && ByteOf(c, 3) == RandInt(0, 255, g)
            && ByteOf(c, 5) == RandInt(0, 255, b)
  {
    var c := Color(r, g, b);
    var x, y, z := RandInt(0, 255, r), RandInt(0, 255, g), RandInt(0, 255, b);
    assert c[1..3] == Hex2(x) && c[3..5] == Hex2(y) && c[5..7] == Hex2(z);
    HexDigitRoundTrip(x / 16);
    HexDigitRoundTrip(x % 16);
    HexDigitRoundTrip(y / 16);
    HexDigitRoundTrip(y % 16);
    HexDigitRoundTrip(z / 16);
    HexDigitRoundTrip(z % 16);
  }

  // ---------------------------------------------------------------------
  // The output

  /** The event emitted for slot number `k`: its identifier takes draw
      `4k` and its colour draws `4k+1` to `4k+3`. */
  function Emit(s: Slot, draws: nat -> nat, k: nat): Placed {
    Placed(NumericId(draws(4 * k)), s.fileName, s.start, s.end,
           Color(draws(4 * k + 1), draws(4 * k + 2), draws(4 * k + 3)))
  }

  /** The events emitted for a layout, in order. */
  function EmitAll(slots: seq<Slot>, draws: nat -> nat): (ps: seq<Placed>)
    ensures |ps| == |slots|
  {
    if slots == [] then [] else EmitAll(slots[..|slots| - 1], draws) + [Emit(slots[|slots| - 1], draws, |slots| - 1)]
  }

  /** Event `k` is slot `k` with the `k`-th identifier and colour: the
      random draws are consumed four per event, in order. */
  lemma {:induction false} EmitAllAt(slots: seq<Slot>, draws: nat -> nat)
    ensures forall k :: 0 <= k < |slots| ==> EmitAll(slots, draws)[k] == Emit(slots[k], draws, k)
  {
    if slots != [] {
      var init := slots[..|slots| - 1];
      EmitAllAt(init, draws);
      forall k | 0 <= k < |slots| ensures EmitAll(slots, draws)[k] == Emit(slots[k], draws, k) {
        if k < |init| {
          assert slots[k] == init[k];
        }
      }
    }
  }

  lemma EmitAllSnoc(slots: seq<Slot>, s: Slot, draws: nat -> nat)
    ensures EmitAll(slots + [s], draws) == EmitAll(slots, draws) + [Emit(s, draws, |slots|)]
  {
    assert (slots + [s])[..|slots|] == slots;
  }

  /** Concatenating slot runs does not depend on grouping. */
  lemma AppendAssoc(a: seq<Slot>, b: seq<Slot>, c: seq<Slot>)
    ensures (a + b) + c == a + (b + c)
  {
  }

  /** A clip that fits is placed and the pass goes on from its end. */
  lemma RoundStep(data: seq<Clip>, i: nat, cur: int, end: int, e: int)
    requires i < |data| && cur + data[i].duration <= end && e == cur + Second + data[i].duration
    ensures Round(data, i, cur, end).0 == [Slot(data[i].fileName, cur + Second, e)] + Round(data, i + 1, e, end).0
    ensures Round(data, i, cur, end).1 == Round(data, i + 1, e, end).1
    ensures Round(data, i, cur, end).2 == Round(data, i + 1, e, end).2
  {
  }

  /** A clip that fits is placed and the layout goes on from its end. */
  lemma LayStep(data: seq<Clip>, i: nat, cur: int, end: int, e: int)
    requires i < |data| && cur + data[i].duration <= end && e == cur + Second + data[i].duration
    ensures Lay(data, i, cur, end) == [Slot(data[i].fileName, cur + Second, e)] + Lay(data, i + 1, e, end)
  {
  }

  /** The `for event in data` loop of one pass, from cursor `cur`:
      appends the events it places to `events` and returns the cursor it
      leaves, `end` when a clip did not fit. */
  method Pass(data: seq<Clip>, cur: int, end: int, draws: nat -> nat, events: seq<Placed>, ghost slots: seq<Slot>)
    returns (events': seq<Placed>, cur': int)
    requires events == EmitAll(slots, draws)
    ensures events' == EmitAll(slots + Round(data, 0, cur, end).0, draws)
    ensures cur' == Round(data, 0, cur, end).1
  {
    events' := events;
    cur' := cur;
    ghost var placed: seq<Slot> := [];
    ghost var whole := Round(data, 0, cur, end);
    ghost var rest := whole;
    assert slots + placed == slots;
    var j := 0;
    while j < |data|
      invariant 0 <= j <= |data|
      invariant rest == Round(data, j, cur', end)
      invariant whole.0 == placed + rest.0 && whole.1 == rest.1
      invariant events' == EmitAll(slots + placed, draws)
    {
      var clip := data[j];
      if cur' + clip.duration > end {
        assert rest.0 == [] && rest.1 == end;
        assert whole.0 == placed;
        cur' := end;
        break;
      }
      var s := cur' + Second;
      var e := s + clip.duration;
      var slot := Slot(clip.fileName, s, e);
      EmitAllSnoc(slots + placed, slot, draws);
      AppendAssoc(slots, placed, [slot]);
      RoundStep(data, j, cur', end, e);
      ghost var next := Round(data, j + 1, e, end);
      AppendAssoc(placed, [slot], next.0);
      events' := events' + [Emit(slot, draws, |events'|)];
      placed := placed + [slot];
      rest := next;
      cur' := e;
      j := j + 1;
    }
    assert whole.0 == placed;
  }

  /** `schedule_events(data, start, end)`: `dateOf` renders a time as
      `%Y-%m-%d`, `draws` is the random source. Unlike script.py, an empty
      `data` gives an empty day instead of looping for ever. */
  method ScheduleEvents(data: seq<Clip>, start: int, end: int, dateOf: int -> string, draws: nat -> nat)
    returns (r: Result<DayRecord, ScheduleError>)
    ensures r.Err? <==> end - start < Total(data)
    ensures r.Ok? ==>
              var slots := Layout(data, start, end);
              r.value == DayRecord(dateOf(start), EmitAll(slots, draws), NumericId(draws(4 * |slots|)))
    ensures r.Ok? && data == [] ==> r.value.events == []
  {
    var total := Total(data);
    if end - start < total {
      return Err(TooShort);
    }
    var events: seq<Placed> := [];
    ghost var slots: seq<Slot> := [];
    ghost var full := Layout(data, start, end);
    if data != [] {
      var cur := start;
      while cur <= end
        invariant start <= cur <= end
        invariant slots + Lay(data, 0, cur, end) == full
        invariant events == EmitAll(slots, draws)
        decreases end - cur
      {
        RoundGoesOn(data, 0, cur, end);
        RoundIsLayPrefix(data, 0, cur, end);
        ghost var pass := Round(data, 0, cur, end);
        ghost var rest := if pass.2 then Lay(data, 0, pass.1, end) else [];
        assert full == slots + (pass.0 + rest);
        events, cur := Pass(data, cur, end, draws, events, slots);
        AppendAssoc(slots, pass.0, rest);
        slots := slots + pass.0;
        if cur >= end {
          assert slots == full;
          break;
        }
      }
    }
    assert events == EmitAll(full, draws);
    r := Ok(DayRecord(dateOf(start), events, NumericId(draws(4 * |events|))));
  }
}
