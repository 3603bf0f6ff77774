/** The HH:MM player of mytask/scheduled_stream.py: `read_schedule` turns the
    playlist file into a map from a time to a video file, and each round of
    `main` picks the video for the current minute. The file system, the pipe
    and the encoders are parameters: the playlist is its lines, or `None`
    when it does not exist, and a video file's existence is a predicate. */
module PlaylistSchedule {
  import opened Wrappers
  import Text

  /** `BLANK_VIDEO`. */
  const BlankVideo: string := "blank.mp4"

  /** A schedule: `time_str` to `video_file`. */
  type Schedule = map<string, string>

  /** The `ValueError` of `time_str, video_file = line.split(maxsplit=1)`
      on a line holding a single word; it carries the stripped line. */
  datatype ParseError = NotEnoughValues(line: string)

  /** What one line of the playlist amounts to. */
  datatype Entry = Blank | Unpaired(word: string) | Pair(time: string, file: string)

  /** One playlist line after `line.strip()` and `split(maxsplit=1)`. */
  function Parse(line: string): Entry {
    var s := Text.Strip(line);
    if s == [] then Blank
    else
      var parts := Text.SplitFirstWord(s);
      if |parts| < 2 then Unpaired(s) else Pair(parts[0], parts[1])
  }

  /** The playlist lines, parsed one by one. */
  function Entries(lines: seq<string>): (es: seq<Entry>)
    ensures |es| == |lines|
    ensures forall i :: 0 <= i < |lines| ==> es[i] == Parse(lines[i])
  {
    if lines == [] then []
    else
      var rest := Entries(lines[1..]);
      assert forall i :: 1 <= i < |lines| ==> ([Parse(lines[0])] + rest)[i] == rest[i - 1];
      [Parse(lines[0])] + rest
  }

  /** The loop of `read_schedule` from the schedule `acc` on: blank lines
      are passed over, a single word raises, a pair sets its time's entry. */
  function Apply(acc: Schedule, es: seq<Entry>): Result<Schedule, ParseError>
    decreases |es|
  {
    if es == [] then Ok(acc)
    else
      match es[0]
      case Blank => Apply(acc, es[1..])
      case Unpaired(w) => Err(NotEnoughValues(w))
      case Pair(t, f) => Apply(acc[t := f], es[1..])
  }

  /** What `read_schedule` returns or raises for a playlist file: nothing
      scheduled when the file does not exist. */
  function Parsed(file: Option<seq<string>>): Result<Schedule, ParseError> {
    if file.None? then Ok(map[]) else Apply(map[], Entries(file.value))
  }

  /** `read_schedule(file_path)`. */
  method ReadSchedule(file: Option<seq<string>>) returns (r: Result<Schedule, ParseError>)
    ensures r == Parsed(file)
    ensures file.None? ==> r == Ok(map[])
  {
    var schedule: Schedule := map[];
    if file.Some? {
      var lines := file.value;
      for i := 0 to |lines|
        invariant Apply(schedule, Entries(lines[i..])) == Apply(map[], Entries(lines))
      {
        assert lines[i..][0] == lines[i] && lines[i..][1..] == lines[i + 1..];
        var line := Text.Strip(lines[i]);
        if line != [] {
          var parts := Text.SplitFirstWord(line);
          if |parts| < 2 {
            return Err(NotEnoughValues(line));
          }
          schedule := schedule[parts[0] := parts[1]];
        }
      }
      assert lines[|lines|..] == [];
    }
    return Ok(schedule);
  }

  /** A line is blank exactly when it is all whitespace; a single word
      carries the stripped line; a time and a file are both non-empty, the
      time holds no whitespace and the file does not start with any. */
  lemma ParseCases(line: string)
    ensures Parse(line).Blank? <==> Text.AllSpace(line)
    ensures Parse(line).Unpaired? ==> Parse(line).word == Text.Strip(line)
    ensures Parse(line).Pair? ==>
              && Parse(line).time != [] && Text.NoSpace(Parse(line).time)
              && Parse(line).file != [] && !Text.IsSpace(Parse(line).file[0])
  {
  }

  /** A line raises exactly when, stripped, it is one word without
      whitespace; otherwise it is blank or splits into a time and a file. */
  lemma ParseUnpaired(line: string)
    ensures Parse(line).Unpaired? <==> !Text.AllSpace(line) && Text.NoSpace(Text.Strip(line))
  {
    var s := Text.Strip(line);
    if s != [] {
      assert Text.SkipSpace(s, 0) == 0;
      var b := Text.SkipWord(s, 0);
      assert Text.NoSpace(s) ==> b == |s|;
      assert b == |s| ==> Text.NoSpace(s);
      assert b < |s| ==> Text.SkipSpace(s, b) < |s|;
    }
  }

  /** A line that splits in two is, stripped, its time, a non-empty run of
      whitespace and its file; the file may hold spaces but neither begins
      nor ends with one. */
  lemma PairShape(line: string)
    requires Parse(line).Pair?
    ensures var s := Text.Strip(line);
            var t := Parse(line).time;
            var f := Parse(line).file;
            && |t| + |f| < |s|
            && s[..|t|] == t
            && s[|s| - |f|..] == f
            && Text.AllSpace(s[|t|..|s| - |f|])
            && !Text.IsSpace(f[|f| - 1])
  {
    var s := Text.Strip(line);
    assert Text.SkipSpace(s, 0) == 0;
    var b := Text.SkipWord(s, 0);
    var c := Text.SkipSpace(s, b);
    Text.SplitFirstWordPair(s, 0, b, c);
  }

  /** A blank entry changes nothing, wherever it stands. */
  lemma {:induction false} BlankPassedOver(acc: Schedule, before: seq<Entry>, after: seq<Entry>)
    ensures Apply(acc, before + [Blank] + after) == Apply(acc, before + after)
    decreases |before|
  {
    if before == [] {
      assert before + [Blank] + after == [Blank] + after;
      assert ([Blank] + after)[1..] == after;
      assert before + after == after;
    } else {
      var rest := before[1..];
      assert (before + [Blank] + after)[0] == before[0];
      assert (before + [Blank] + after)[1..] == rest + [Blank] + after;
      assert (before + after)[0] == before[0];
      assert (before + after)[1..] == rest + after;
      match before[0]
      case Blank => BlankPassedOver(acc, rest, after);
      case Unpaired(w) =>
      case Pair(t, f) => BlankPassedOver(acc[t := f], rest, after);
    }
  }

  /** Blank and whitespace-only lines of the playlist are ignored, wherever
      they stand. */
  lemma BlankLinesIgnored(before: seq<string>, blank: string, after: seq<string>)
    requires Text.AllSpace(blank)
    ensures Parsed(Some(before + [blank] + after)) == Parsed(Some(before + after))
  {
    EntriesAppend(before + [blank], after);
    EntriesAppend(before, [blank]);
    EntriesAppend(before, after);
    assert Entries([blank]) == [Blank] by {
      ParseCases(blank);
      assert [blank][1..] == [];
    }
    BlankPassedOver(map[], Entries(before), Entries(after));
  }

  lemma {:induction false} EntriesAppend(a: seq<string>, b: seq<string>)
    ensures Entries(a + b) == Entries(a) + Entries(b)
  {
    if a == [] {
      assert a + b == b;
    } else {
      assert (a + b)[0] == a[0] && (a + b)[1..] == a[1..] + b;
      EntriesAppend(a[1..], b);
    }
  }


  /** Whether entry `i` sets the schedule of time `k`. */
  predicate Sets(es: seq<Entry>, i: int, k: string)
    requires 0 <= i < |es|
  {
    es[i].Pair? && es[i].time == k
  }

  /** A time no entry sets keeps what it had before the file was read: from
      an empty start, it is not scheduled. */
  lemma {:induction false} UnsetTimeKept(acc: Schedule, es: seq<Entry>, k: string)
    requires Apply(acc, es).Ok?
    requires forall i :: 0 <= i < |es| ==> !Sets(es, i, k)
    ensures k in Apply(acc, es).value <==> k in acc
    ensures k in acc ==> Apply(acc, es).value[k] == acc[k]
    decreases |es|
  {
    if es != [] {
      forall i | 0 <= i < |es[1..]| ensures !Sets(es[1..], i, k) {
        assert !Sets(es, i + 1, k);
      }
      assert !Sets(es, 0, k);
      match es[0]
      case Blank => UnsetTimeKept(acc, es[1..], k);
      case Pair(t, f) => UnsetTimeKept(acc[t := f], es[1..], k);
    }
  }

  /** The last entry that sets a time decides its schedule: a later line for
      the same time overrides an earlier one. */
  lemma {:induction false} LastLineWins(acc: Schedule, es: seq<Entry>, i: nat, k: string, f: string)
    requires Apply(acc, es).Ok?
    requires i < |es| && es[i] == Pair(k, f)
    requires forall j :: i < j < |es| ==> !Sets(es, j, k)
    ensures k in Apply(acc, es).value && Apply(acc, es).value[k] == f
    decreases |es|
  {
    forall j | i - 1 < j < |es[1..]| ensures !Sets(es[1..], j, k) {
      assert !Sets(es, j + 1, k);
    }
    if i == 0 {
      UnsetTimeKept(acc[k := f], es[1..], k);
    } else {
      assert es[1..][i - 1] == es[i];
      match es[0]
      case Blank => LastLineWins(acc, es[1..], i - 1, k, f);
      case Pair(t, g) => LastLineWins(acc[t := g], es[1..], i - 1, k, f);
    }
  }

  /** The first single-word line raises, with that line. */
  lemma {:induction false} FailsAtFirstSingleWord(acc: Schedule, es: seq<Entry>, i: nat)
    requires i < |es| && es[i].Unpaired?
    requires forall j :: 0 <= j < i ==> !es[j].Unpaired?
    ensures Apply(acc, es) == Err(NotEnoughValues(es[i].word))
    decreases |es|
  {
    if i > 0 {
      assert !es[0].Unpaired?;
      forall j | 0 <= j < i - 1 ensures !es[1..][j].Unpaired? {
        assert !es[j + 1].Unpaired?;
      }
      assert es[1..][i - 1] == es[i];
      match es[0]
      case Blank => FailsAtFirstSingleWord(acc, es[1..], i - 1);
      case Pair(t, f) => FailsAtFirstSingleWord(acc[t := f], es[1..], i - 1);
    }
  }

  /** Without a single-word line, reading succeeds. */
  lemma {:induction false} SucceedsWithoutSingleWord(acc: Schedule, es: seq<Entry>)
    requires forall j :: 0 <= j < |es| ==> !es[j].Unpaired?
    ensures Apply(acc, es).Ok?
    decreases |es|
  {
    if es != [] {
      assert !es[0].Unpaired?;
      forall j | 0 <= j < |es[1..]| ensures !es[1..][j].Unpaired? {
        assert !es[j + 1].Unpaired?;
      }
      match es[0]
      case Blank => SucceedsWithoutSingleWord(acc, es[1..]);
      case Pair(t, f) => SucceedsWithoutSingleWord(acc[t := f], es[1..]);
    }
  }

  /** The branch of `main` that picks the video for minute `now`: the
      scheduled file when there is one and it exists, the blank video
      otherwise. */
  function Select(now: string, schedule: Schedule, present: string -> bool): string {
    if now in schedule then
      var file := schedule[now];
      if present(file) then file else BlankVideo
    else BlankVideo
  }

  /** Whatever is picked is the blank video or the file scheduled for the
      minute, and never a missing file other than the blank video; the
      scheduled file is picked whenever the minute has one that exists, and
      the blank video whenever it has none. */
  lemma SelectScheduledOrBlank(now: string, schedule: Schedule, present: string -> bool)
    ensures var v := Select(now, schedule, present);
            v == BlankVideo || (now in schedule && schedule[now] == v && present(v))
    ensures now in schedule && present(schedule[now]) ==> Select(now, schedule, present) == schedule[now]
    ensures !(now in schedule && present(schedule[now])) ==> Select(now, schedule, present) == BlankVideo
  {
  }

  /** What one round of `main` ends in: the video written to the pipe, the
      end of the loop when the pipe is gone, or the error of reading the
      playlist, which leaves `main`. */
  datatype Round = Streams(video: string) | PipeMissing | ReadFailed(error: ParseError)

  /** The state `main` keeps across rounds. */
  class Player {
    /** `processed_times` */
    var processed: set<string>

    constructor ()
      ensures processed == {}
    {
      processed := {};
    }

    /** One round of `main`'s loop: `now` is `get_current_time()`, `file`
        the playlist, `present` what exists on disk and `pipe` whether the
        named pipe exists. A minute is recorded as processed exactly when its
        scheduled file exists; the record is never consulted. */
    method Step(now: string, file: Option<seq<string>>, present: string -> bool, pipe: bool)
      returns (r: Round)
      modifies this
      ensures Parsed(file).Err? ==> r == ReadFailed(Parsed(file).error) && processed == old(processed)
      ensures Parsed(file).Ok? ==>
                && r == (if pipe then Streams(Select(now, Parsed(file).value, present)) else PipeMissing)
                && processed == old(processed) +
                     (if now in Parsed(file).value && present(Parsed(file).value[now]) then {now} else {})
    {
      var read := ReadSchedule(file);
      if read.Err? {
        return ReadFailed(read.error);
      }
      var schedule := read.value;
      var video: string;
      if now in schedule {
        video := schedule[now];
        if present(video) {
          processed := processed + {now};
        } else {
          video := BlankVideo;
        }
      } else {
        video := BlankVideo;
      }
      if pipe {
        r := Streams(video);
      } else {
        r := PipeMissing;
      }
    }
  }
}
