/** The live manifest of `test_mod.py`: `generate_event_file(date)` starts at
    the clock reading, skips the events that start before the running cursor,
    fills every gap with as many whole 20-second blank clips as fit, and then
    fills the rest of the day the same way. It writes `file '…'` lines only. */
module ChunkedManifest {
  import opened Schedules
  import Text

  /** The length of one blank clip: 20 seconds. */
  const Chunk: int := 20 * Second

  /** The bucket's address in its region. */
  const RegionalUrl: string := "https://tvunativeoverlay.s3.ap-south-1.amazonaws.com/"

  /** `BLANK_VIDEO_PATH` of test_mod.py. */
  const BlankVideo: string := RegionalUrl + "concontent-scheduler/uploaded_videos/rsystems1crop.mp4"

  /** `f"https://{BUCKET_NAME}.s3.amazonaws.com/"` with `BUCKET_NAME = 'tvunativeoverlay'`. */
  const BucketUrl: string := "https://tvunativeoverlay.s3.amazonaws.com/"

  function FileLine(path: string): string {
    "file '" + path + "'"
  }

  function EventLine(e: Event): string {
    FileLine(BucketUrl + e.fileName)
  }

  const BlankLine: string := FileLine(BlankVideo)

  function Blanks(n: nat): (r: seq<string>)
    ensures |r| == n && forall k :: 0 <= k < n ==> r[k] == BlankLine
  {
    seq(n, _ => BlankLine)
  }

  /** `int(gap // 20)` for a positive gap between `from` and `until`, and no
      blank at all when there is no gap: the whole chunks that fit, the
      remainder under 20 seconds dropped. */
  function ChunksIn(from: int, until: int): (n: nat)
    ensures from < until ==> n * Chunk <= until - from < (n + 1) * Chunk
    ensures until <= from ==> n == 0
  {
    if from < until then (until - from) / Chunk else 0
  }

  /** The clock reading as `strftime('%Y-%m-%d %H:%M:%S')` keeps it: the
      microseconds are dropped. */
  function Watermark(now: int): (w: int)
    ensures w <= now < w + Second && w % Second == 0
  {
    now - now % Second
  }

  /** The lines emitted for `es` from cursor `cursor` on, the trailing blanks
      up to `eod` included. An event starting before the cursor is skipped
      and leaves the cursor where it is; an emitted event moves it to its end. */
  function Chunked(es: seq<Event>, cursor: int, eod: int): seq<string>
    decreases |es|
  {
    if es == [] then Blanks(ChunksIn(cursor, eod))
    else if es[0].start < cursor then Chunked(es[1..], cursor, eod)
    else Blanks(ChunksIn(cursor, es[0].start)) + [EventLine(es[0])] + Chunked(es[1..], es[0].end, eod)
  }

  /** The events that are emitted, in order. */
  function Emitted(es: seq<Event>, cursor: int): seq<Event>
    decreases |es|
  {
    if es == [] then []
    else if es[0].start < cursor then Emitted(es[1..], cursor)
    else [es[0]] + Emitted(es[1..], es[0].end)
  }

  /** `n` more blank lines after `lines`. */
  method AppendBlanks(lines: seq<string>, n: int) returns (r: seq<string>)
    requires n >= 0
    ensures r == lines + Blanks(n)
  {
    r := lines;
    for j := 0 to n
      invariant r == lines + Blanks(j)
    {
      assert Blanks(j + 1) == Blanks(j) + [BlankLine];
      r := r + [BlankLine];
    }
  }

  /** The body of `generate_event_file` between the read and the write: the
      loop over the sorted events from the watermark `start`, then the
      trailing blanks up to `eod`. */
  method BuildLines(sorted: seq<Event>, start: int, eod: int) returns (lines: seq<string>)
    ensures lines == Chunked(sorted, start, eod)
  {
    var current := start;
    lines := [];
    for i := 0 to |sorted|
      invariant lines + Chunked(sorted[i..], current, eod) == Chunked(sorted, start, eod)
    {
      var e := sorted[i];
      assert sorted[i..] == [e] + sorted[i + 1..];
      if e.start < current {
        continue;
      }
      ghost var before := lines;
      if current < e.start {
        lines := AppendBlanks(lines, (e.start - current) / Chunk);
      }
      assert lines == before + Blanks(ChunksIn(current, e.start));
      lines := lines + [EventLine(e)];
      current := e.end;
    }
    assert sorted[|sorted|..] == [];
    if current < eod {
      lines := AppendBlanks(lines, (eod - current) / Chunk);
    } else {
      assert Blanks(0) == [];
    }
  }

  /** `generate_event_file(date)`: `records` is what the store returns for the
      date, `now` the clock reading and `midnight` the parsed date. Returns
      the lines and the text written to `<date>.txt`. */
  method GenerateEventFile(records: seq<seq<Event>>, now: int, midnight: int)
    returns (lines: seq<string>, text: string)
    ensures lines == Chunked(SortByStart(EventsOf(records)), Watermark(now), EndOfDay(midnight))
    ensures EventsOf(records) == [] ==>
              lines == Blanks(ChunksIn(Watermark(now), EndOfDay(midnight)))
    ensures text == Text.Join(lines, '\n')
  {
    var sorted := SortByStart(EventsOf(records));
    lines := BuildLines(sorted, Watermark(now), EndOfDay(midnight));
    text := Text.Join(lines, '\n');
  }

  /** A `file '<path>'` line. */
  predicate IsFileLine(l: string) {
    |l| >= 7 && Text.StartsWith(l, "file '") && l[|l| - 1] == '\''
  }

  lemma FileLineShape(p: string)
    ensures IsFileLine(FileLine(p))
  {
    assert FileLine(p)[..6] == "file '";
  }

  /** Every line written is a `file '…'` line; no `duration` line is ever
      written. */
  lemma {:induction false} OnlyFileLines(es: seq<Event>, cursor: int, eod: int)
    ensures forall k :: 0 <= k < |Chunked(es, cursor, eod)| ==> IsFileLine(Chunked(es, cursor, eod)[k])
  {
    FileLineShape(BlankVideo);
    if es != [] {
      FileLineShape(BucketUrl + es[0].fileName);
      if es[0].start < cursor {
        OnlyFileLines(es[1..], cursor, eod);
      } else {
        OnlyFileLines(es[1..], es[0].end, eod);
      }
    }
  }

  /** With events that do not end before they start, no emitted event starts
      before the clock reading: an event already started is never rendered. */
  lemma {:induction false} PastEventsExcluded(es: seq<Event>, cursor: int)
    requires forall i :: 0 <= i < |es| ==> es[i].start <= es[i].end
    ensures forall k :: 0 <= k < |Emitted(es, cursor)| ==> cursor <= Emitted(es, cursor)[k].start
  {
    if es != [] {
      if es[0].start < cursor {
        PastEventsExcluded(es[1..], cursor);
      } else {
        PastEventsExcluded(es[1..], es[0].end);
      }
    }
  }

  /** The cursor once every event has been considered: it follows the same
      rule as `Emitted`. */
  function Final(es: seq<Event>, cursor: int): int
    decreases |es|
  {
    if es == [] then cursor
    else if es[0].start < cursor then Final(es[1..], cursor)
    else Final(es[1..], es[0].end)
  }

  /** One more event at the end of the list is emitted exactly when it starts
      at or after the cursor the earlier events left, and only then moves the
      cursor to its end. */
  lemma {:induction false} EmittedSnoc(es: seq<Event>, e: Event, cursor: int)
    ensures Emitted(es + [e], cursor)
            == Emitted(es, cursor) + (if e.start >= Final(es, cursor) then [e] else [])
    ensures Final(es + [e], cursor)
            == if e.start >= Final(es, cursor) then e.end else Final(es, cursor)
  {
    if es == [] {
      assert es + [e] == [e];
      assert [e][1..] == [];
    } else {
      assert (es + [e])[0] == es[0];
      assert (es + [e])[1..] == es[1..] + [e];
      if es[0].start < cursor {
        EmittedSnoc(es[1..], e, cursor);
      } else {
        EmittedSnoc(es[1..], e, es[0].end);
      }
    }
  }

  /** Upcoming events in start order that do not overlap are all emitted,
      in their order. */
  lemma {:induction false} AllUpcomingEmitted(es: seq<Event>, cursor: int)
    requires forall i :: 0 <= i < |es| ==> es[i].start <= es[i].end
    requires forall i :: 0 <= i < |es| - 1 ==> es[i].end <= es[i + 1].start
    requires es != [] ==> cursor <= es[0].start
    ensures Emitted(es, cursor) == es
  {
    if es != [] {
      var rest := es[1..];
      assert forall i :: 0 <= i < |rest| ==> rest[i] == es[i + 1];
      assert rest != [] ==> es[0].end <= rest[0].start by {
        if rest != [] {
          assert es[0].end <= es[1].start;
        }
      }
      AllUpcomingEmitted(rest, es[0].end);
      assert [es[0]] + rest == es;
    }
  }

  /** `t` ends with the lines `f`. */
  predicate EndsWithLines(t: seq<string>, f: seq<string>) {
    |f| <= |t| && t[|t| - |f|..] == f
  }

  lemma EndsWithAppend(head: seq<string>, tail: seq<string>, f: seq<string>)
    requires EndsWithLines(tail, f)
    ensures EndsWithLines(head + tail, f)
  {
    assert (head + tail)[|head + tail| - |f|..] == tail[|tail| - |f|..];
  }

  /** The lines end with the blanks that fit between the cursor the events
      leave and the end of the day. */
  lemma {:induction false} TrailingBlanks(es: seq<Event>, cursor: int, eod: int)
    ensures EndsWithLines(Chunked(es, cursor, eod), Blanks(ChunksIn(Final(es, cursor), eod)))
    decreases |es|
  {
    if es == [] {
      var b := Blanks(ChunksIn(cursor, eod));
      assert b[|b| - |b|..] == b;
    } else if es[0].start < cursor {
      TrailingBlanks(es[1..], cursor, eod);
    } else {
      TrailingBlanks(es[1..], es[0].end, eod);
      EndsWithAppend(Blanks(ChunksIn(cursor, es[0].start)) + [EventLine(es[0])],
                     Chunked(es[1..], es[0].end, eod),
                     Blanks(ChunksIn(Final(es, cursor), eod)));
    }
  }

  /** Events that all start before the cursor contribute nothing: the output
      is the trailing blanks alone, as for an empty schedule. */
  lemma {:induction false} AllPastSkipped(es: seq<Event>, cursor: int, eod: int)
    requires forall i :: 0 <= i < |es| ==> es[i].start < cursor
    ensures Chunked(es, cursor, eod) == Blanks(ChunksIn(cursor, eod))
  {
    if es != [] {
      AllPastSkipped(es[1..], cursor, eod);
    }
  }

  function NonBlank(ls: seq<string>): seq<string> {
    if ls == [] then []
    else (if ls[0] == BlankLine then [] else [ls[0]]) + NonBlank(ls[1..])
  }

  lemma {:induction false} NonBlankAppend(a: seq<string>, b: seq<string>)
    ensures NonBlank(a + b) == NonBlank(a) + NonBlank(b)
  {
    if a == [] {
      assert a + b == b;
    } else {
      assert (a + b)[0] == a[0];
      assert (a + b)[1..] == a[1..] + b;
      NonBlankAppend(a[1..], b);
    }
  }

  lemma {:induction false} NonBlankOfBlanks(n: nat)
    ensures NonBlank(Blanks(n)) == []
  {
    if n > 0 {
      assert Blanks(n) == [BlankLine] + Blanks(n - 1);
      NonBlankOfBlanks(n - 1);
    }
  }

  lemma EventLineIsNotBlank(e: Event)
    ensures EventLine(e) != BlankLine
  {
    assert EventLine(e)[35] == 'm';
    assert BlankLine[35] == BlankVideo[29] == RegionalUrl[29] == 'p';
  }

  function EventLines(es: seq<Event>): (r: seq<string>)
    ensures |r| == |es| && forall k :: 0 <= k < |es| ==> r[k] == EventLine(es[k])
  {
    if es == [] then [] else [EventLine(es[0])] + EventLines(es[1..])
  }

  /** Leaving out the blank lines leaves exactly one line per emitted event,
      in order: each emitted event adds one line, the blanks are the rest. */
  lemma {:induction false} EventsAmongBlanks(es: seq<Event>, cursor: int, eod: int)
    ensures NonBlank(Chunked(es, cursor, eod)) == EventLines(Emitted(es, cursor))
  {
    if es == [] {
      NonBlankOfBlanks(ChunksIn(cursor, eod));
    } else if es[0].start < cursor {
      EventsAmongBlanks(es[1..], cursor, eod);
    } else {
      var e := es[0];
      var gap := Blanks(ChunksIn(cursor, e.start));
      var rest := Chunked(es[1..], e.end, eod);
      EventsAmongBlanks(es[1..], e.end, eod);
      NonBlankAppend(gap + [EventLine(e)], rest);
      NonBlankAppend(gap, [EventLine(e)]);
      NonBlankOfBlanks(ChunksIn(cursor, e.start));
      EventLineIsNotBlank(e);
      assert NonBlank([EventLine(e)]) == [EventLine(e)];
      assert Chunked(es, cursor, eod) == gap + [EventLine(e)] + rest;
      var later := Emitted(es[1..], e.end);
      assert Emitted(es, cursor) == [e] + later;
      assert ([e] + later)[1..] == later;
      assert EventLines([e] + later) == [EventLine(e)] + EventLines(later);
    }
  }
}
