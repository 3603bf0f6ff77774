/** The day manifest of `app/utils.py`: `generate_event_file(date)` walks the
    date's events in start order from midnight, puts a blank filler before
    every event that leaves a gap, and a last filler up to 23:59:59.999999.
    Each entry is a `file '…'` line followed by a `duration …` line. */
module DayManifest {
  import opened Schedules
  import Text

  /** `BLANK_VIDEO_PATH` of app/config.py. */
  const BlankVideo: string := "blank_video/text_video.mp4"

  /** `f"https://{BUCKET_NAME}.s3.amazonaws.com/"` with `BUCKET_NAME` of app/config.py. */
  const BucketUrl: string := "https://tvunativeoverlay.s3.amazonaws.com/"

  /** A manifest line: `file '<path>'` or `duration <seconds>`, the duration
      held in microseconds. */
  datatype Directive = File(path: string) | Duration(micros: int)

  function EventUrl(e: Event): string {
    BucketUrl + e.fileName
  }

  /** An event's URL is never the blank filler's path. */
  lemma EventUrlIsNotBlank(e: Event)
    ensures EventUrl(e) != BlankVideo
  {
    assert EventUrl(e)[0] == BucketUrl[0] == 'h';
    assert BlankVideo[0] == 'b';
  }

  /** The filler pair covering `[from, until)`, emitted only when there is a gap. */
  function Filler(from: int, until: int): seq<Directive> {
    if from < until then [File(BlankVideo), Duration(until - from)] else []
  }

  /** The pair an event emits: its URL and its length. */
  function EventPair(e: Event): seq<Directive> {
    [File(EventUrl(e)), Duration(e.end - e.start)]
  }

  /** The lines the loop emits for `es` from cursor `cursor` on, the trailing
      filler up to `eod` included. The cursor becomes each event's end, even
      when that moves it backwards. */
  function Timeline(es: seq<Event>, cursor: int, eod: int): seq<Directive>
    decreases |es|
  {
    if es == [] then Filler(cursor, eod)
    else Filler(cursor, es[0].start) + EventPair(es[0]) + Timeline(es[1..], es[0].end, eod)
  }

  /** The cursor once every event is visited: the last event's end, whatever
      the ends before it were. */
  function FinalCursor(es: seq<Event>, cursor: int): int {
    if es == [] then cursor else es[|es| - 1].end
  }

  /** The manifest text a formatting of seconds gives: `fmt` is the text
      Python prints for a duration, given in microseconds. */
  function Render(d: Directive, fmt: int -> string): string {
    match d
    case File(p) => "file '" + p + "'"
    case Duration(us) => "duration " + fmt(us)
  }

  function RenderAll(ds: seq<Directive>, fmt: int -> string): (r: seq<string>)
    ensures |r| == |ds|
    ensures forall k :: 0 <= k < |ds| ==> r[k] == Render(ds[k], fmt)
  {
    if ds == [] then []
    else
      var rest := RenderAll(ds[1..], fmt);
      assert forall k :: 1 <= k < |ds| ==> ([Render(ds[0], fmt)] + rest)[k] == rest[k - 1];
      [Render(ds[0], fmt)] + rest
  }

  /** The sum of the durations of a manifest. */
  function TotalDuration(ds: seq<Directive>): int {
    if ds == [] then 0
    else (if ds[0].Duration? then ds[0].micros else 0) + TotalDuration(ds[1..])
  }

  lemma TotalDurationPair(p: string, d: int)
    ensures TotalDuration([File(p), Duration(d)]) == d
  {
    var one: seq<Directive> := [Duration(d)];
    assert one[1..] == [];
    assert TotalDuration(one) == d;
    assert [File(p), Duration(d)][1..] == one;
  }

  lemma {:induction false} TotalDurationAppend(a: seq<Directive>, b: seq<Directive>)
    ensures TotalDuration(a + b) == TotalDuration(a) + TotalDuration(b)
  {
    if a == [] {
      assert a + b == b;
    } else {
      var ab := a + b;
      assert ab[0] == a[0];
      assert ab[1..] == a[1..] + b;
      TotalDurationAppend(a[1..], b);
    }
  }

  /** The body of `generate_event_file` between the read and the write:
      the loop over the sorted events from `midnight`, then the trailing
      filler up to `eod`. */
  method BuildTimeline(sorted: seq<Event>, midnight: int, eod: int) returns (lines: seq<Directive>)
    ensures lines == Timeline(sorted, midnight, eod)
  {
    lines := [];
    var current := midnight;
    for i := 0 to |sorted|
      invariant lines + Timeline(sorted[i..], current, eod) == Timeline(sorted, midnight, eod)
    {
      var e := sorted[i];
      TimelineCons(sorted, i, current, eod);
      ghost var before := lines;
      if current < e.start {
        lines := lines + [File(BlankVideo), Duration(e.start - current)];
      }
      assert lines == before + Filler(current, e.start);
      lines := lines + [File(EventUrl(e)), Duration(e.end - e.start)];
      assert lines == before + Filler(current, e.start) + EventPair(e);
      DirectivesAssoc(before, Filler(current, e.start), EventPair(e), Timeline(sorted[i + 1..], e.end, eod));
      current := e.end;
    }
    assert sorted[|sorted|..] == [];
    if current < eod {
      lines := lines + [File(BlankVideo), Duration(eod - current)];
    }
  }

  /** `generate_event_file(date)`: `records` is what the store returns for
      the date, `midnight` the parsed date, `fmt` Python's rendering of a
      duration. Returns the lines and the text written to `<date>.txt`. */
  method GenerateEventFile(records: seq<seq<Event>>, midnight: int, fmt: int -> string)
    returns (lines: seq<Directive>, text: string)
    ensures lines == Timeline(SortByStart(EventsOf(records)), midnight, EndOfDay(midnight))
    ensures EventsOf(records) == [] ==> lines == [File(BlankVideo), Duration(Day - 1)]
    ensures text == Text.Join(RenderAll(lines, fmt), '\n')
  {
    var sorted := SortByStart(EventsOf(records));
    lines := BuildTimeline(sorted, midnight, EndOfDay(midnight));
    text := Text.Join(RenderAll(lines, fmt), '\n');
  }

  /** The timeline from event `i` on is its filler and pair, then the rest. */
  lemma TimelineCons(es: seq<Event>, i: nat, cursor: int, eod: int)
    requires i < |es|
    ensures Timeline(es[i..], cursor, eod)
         == Filler(cursor, es[i].start) + EventPair(es[i]) + Timeline(es[i + 1..], es[i].end, eod)
  {
    assert es[i..][0] == es[i] && es[i..][1..] == es[i + 1..];
  }

  lemma DirectivesAssoc(a: seq<Directive>, b: seq<Directive>, c: seq<Directive>, d: seq<Directive>)
    ensures (a + b + c) + d == a + (b + c + d)
  {
  }

  /** Lines alternate: every even-indexed line is a `file` line and every
      odd-indexed one a `duration` line, so the manifest has an even length. */
  lemma {:induction false} TimelineAlternates(es: seq<Event>, cursor: int, eod: int)
    ensures |Timeline(es, cursor, eod)| % 2 == 0
    ensures forall k :: 0 <= k < |Timeline(es, cursor, eod)| ==>
              (Timeline(es, cursor, eod)[k].File? <==> k % 2 == 0)
  {
    if es != [] {
      TimelineAlternates(es[1..], es[0].end, eod);
      var f := Filler(cursor, es[0].start);
      var p := EventPair(es[0]);
      var tail := Timeline(es[1..], es[0].end, eod);
      assert Alternating(f) && Alternating(p);
      AlternatingAppend(f, p);
      AlternatingAppend(f + p, tail);
      assert Timeline(es, cursor, eod) == f + p + tail;
    }
  }

  /** Even length, with `file` lines exactly at even positions. */
  predicate Alternating(s: seq<Directive>) {
    |s| % 2 == 0 && forall k :: 0 <= k < |s| ==> (s[k].File? <==> k % 2 == 0)
  }

  lemma AlternatingAppend(a: seq<Directive>, b: seq<Directive>)
    requires Alternating(a) && Alternating(b)
    ensures Alternating(a + b)
  {
    forall k | 0 <= k < |a + b| ensures ((a + b)[k].File? <==> k % 2 == 0) {
      if k >= |a| {
        assert (a + b)[k] == b[k - |a|];
      } else {
        assert (a + b)[k] == a[k];
      }
    }
  }

  /** The first lines for an event: a blank filler of exactly `start - cursor`
      precedes it if and only if the cursor is before its start, then comes
      its URL with its length; nothing is emitted for touching or overlapping
      events. */
  lemma EventEntry(es: seq<Event>, cursor: int, eod: int)
    requires es != []
    ensures var t := Timeline(es, cursor, eod); var e := es[0];
      && (t[0] == File(BlankVideo) <==> cursor < e.start)
      && (cursor < e.start ==> t[1] == Duration(e.start - cursor) &&
                               t[2..4] == [File(EventUrl(e)), Duration(e.end - e.start)])
      && (e.start <= cursor ==> t[..2] == [File(EventUrl(e)), Duration(e.end - e.start)])
  {
    EventUrlIsNotBlank(es[0]);
  }

  /** The manifest ends with the filler from the final cursor (the last
      event's end) to the end of the day, present when the final cursor is
      before the end of the day. */
  lemma {:induction false} TrailingFiller(es: seq<Event>, cursor: int, eod: int)
    ensures IsSuffix(Filler(FinalCursor(es, cursor), eod), Timeline(es, cursor, eod))
  {
    if es != [] {
      TrailingFiller(es[1..], es[0].end, eod);
      assert FinalCursor(es[1..], es[0].end) == FinalCursor(es, cursor);
      var head := Filler(cursor, es[0].start) + EventPair(es[0]);
      var tail := Timeline(es[1..], es[0].end, eod);
      SuffixOfAppend(head, tail, Filler(FinalCursor(es, cursor), eod));
      assert Timeline(es, cursor, eod) == head + tail;
    }
  }

  /** The converse: once the final cursor has reached the end of the day no
      filler follows, so the manifest ends with the last event's own pair,
      and a schedule without events from such a cursor gives no lines. */
  lemma {:induction false} NothingAfterEndOfDay(es: seq<Event>, cursor: int, eod: int)
    requires FinalCursor(es, cursor) >= eod
    ensures es == [] ==> Timeline(es, cursor, eod) == []
    ensures es != [] ==> IsSuffix(EventPair(es[|es| - 1]), Timeline(es, cursor, eod))
  {
    if es != [] {
      var head := Filler(cursor, es[0].start) + EventPair(es[0]);
      var tail := Timeline(es[1..], es[0].end, eod);
      assert Timeline(es, cursor, eod) == head + tail;
      if |es| == 1 {
        assert tail == Filler(es[0].end, eod) == [];
        assert IsSuffix(EventPair(es[0]), head);
        assert head + tail == head;
      } else {
        assert FinalCursor(es[1..], es[0].end) == FinalCursor(es, cursor);
        NothingAfterEndOfDay(es[1..], es[0].end, eod);
        assert es[1..][|es[1..]| - 1] == es[|es| - 1];
        SuffixOfAppend(head, tail, EventPair(es[|es| - 1]));
      }
    }
  }

  /** `f` is the last `|f|` lines of `t`. */
  predicate IsSuffix(f: seq<Directive>, t: seq<Directive>) {
    |f| <= |t| && t[|t| - |f|..] == f
  }

  lemma SuffixOfAppend(head: seq<Directive>, tail: seq<Directive>, f: seq<Directive>)
    requires IsSuffix(f, tail)
    ensures IsSuffix(f, head + tail)
  {
    assert (head + tail)[|head + tail| - |f|..] == tail[|tail| - |f|..];
  }

  /** Events inside `[lo, hi]`, each starting no earlier than the previous
      one ends. */
  predicate Tiles(es: seq<Event>, lo: int, hi: int) {
    && (forall i :: 0 <= i < |es| ==> lo <= es[i].start <= es[i].end <= hi)
    && (forall i :: 0 <= i < |es| - 1 ==> es[i].end <= es[i + 1].start)
  }

  /** For sorted, non-overlapping events inside the day, fillers and events
      together cover the day: the durations add up to `eod - cursor`. */
  lemma {:induction false} DurationsCoverDay(es: seq<Event>, cursor: int, eod: int)
    requires cursor <= eod && Tiles(es, cursor, eod)
    ensures TotalDuration(Timeline(es, cursor, eod)) == eod - cursor
  {
    if es != [] {
      var e := es[0];
      assert Tiles(es[1..], e.end, eod) by {
        forall i | 0 <= i < |es[1..]| ensures e.end <= es[1..][i].start {
          TilesChain(es, cursor, eod, i + 1);
        }
      }
      DurationsCoverDay(es[1..], e.end, eod);
      var f := Filler(cursor, e.start);
      TotalDurationAppend(f + EventPair(e), Timeline(es[1..], e.end, eod));
      TotalDurationAppend(f, EventPair(e));
      TotalDurationPair(EventUrl(e), e.end - e.start);
      TotalDurationPair(BlankVideo, e.start - cursor);
    } else {
      TotalDurationPair(BlankVideo, eod - cursor);
    }
  }

  /** In a tiling, every event starts no earlier than the first one ends. */
  lemma {:induction false} TilesChain(es: seq<Event>, lo: int, hi: int, j: nat)
    requires Tiles(es, lo, hi) && 0 < j < |es|
    ensures es[0].end <= es[j].start
  {
    if j > 1 {
      TilesChain(es, lo, hi, j - 1);
    }
  }

  /** Events that leave no gap from the cursor and last to the end of the day
      yield no filler at all: exactly two lines per event. */
  lemma {:induction false} NoFillerWhenGapless(es: seq<Event>, cursor: int, eod: int)
    requires es != [] && es[0].start <= cursor && es[|es| - 1].end >= eod
    requires forall i :: 0 <= i < |es| - 1 ==> es[i + 1].start <= es[i].end
    ensures File(BlankVideo) !in Timeline(es, cursor, eod)
    ensures |Timeline(es, cursor, eod)| == 2 * |es|
  {
    EventUrlIsNotBlank(es[0]);
    if |es| > 1 {
      NoFillerWhenGapless(es[1..], es[0].end, eod);
    }
  }

  /** The text holds one line per manifest entry, separated by newlines with
      none at the end, when the duration rendering never contains a newline. */
  lemma ManifestText(ds: seq<Directive>, fmt: int -> string)
    requires ds != []
    requires forall us :: '\n' !in fmt(us)
    requires forall k :: 0 <= k < |ds| ==> ds[k].File? ==> '\n' !in ds[k].path
    ensures Text.Split(Text.Join(RenderAll(ds, fmt), '\n'), '\n') == RenderAll(ds, fmt)
  {
    var ls := RenderAll(ds, fmt);
    forall k | 0 <= k < |ls| ensures '\n' !in ls[k] {
      RenderHasNoNewline(ds[k], fmt);
    }
    Text.SplitJoin(ls, '\n');
  }

  lemma RenderHasNoNewline(d: Directive, fmt: int -> string)
    requires forall us :: '\n' !in fmt(us)
    requires d.File? ==> '\n' !in d.path
    ensures '\n' !in Render(d, fmt)
  {
    match d
    case File(p) =>
      assert Render(d, fmt) == "file '" + p + "'";
    case Duration(us) =>
      assert Render(d, fmt) == "duration " + fmt(us);
  }
}
