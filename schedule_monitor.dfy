/** The guard of `monitor_schedule` in test2.py: an event is handed to the
    encoder when it starts today, has started, and its start time has not
    been handed over before; the start time is then recorded. Which events
    reach the guard is a parameter, the candidates of one pass in order. */
module ScheduleMonitor {
  import opened Schedules

  /** An event as the guard sees it: its parsed `start_time`, its
      `file_name` and the `date` of its schedule record. */
  datatype Candidate = Candidate(start: int, fileName: string, date: string)

  /** The bucket's address in its region, as the encoder is given it. */
  const RegionalUrl: string := "https://tvunativeoverlay.s3.ap-south-1.amazonaws.com/"

  /** `video_path` of a candidate. */
  function Url(c: Candidate): (u: string)
    ensures |u| == |RegionalUrl| + |c.fileName|
    ensures u[..|RegionalUrl|] == RegionalUrl && u[|RegionalUrl|..] == c.fileName
  {
    RegionalUrl + c.fileName
  }

  /** `t.date()`: the day a time falls on. */
  function DayOf(t: int): int {
    t / Day
  }

  /** Starts today and no later than now. */
  predicate Due(c: Candidate, now: int) {
    DayOf(c.start) == DayOf(now) && c.start <= now
  }

  /** The runs of one pass over `cs` with `processed` recorded before it:
      each due candidate with an unrecorded start runs, and its start is
      recorded before the next candidate is looked at. */
  function Runs(cs: seq<Candidate>, now: int, processed: set<int>): seq<Candidate>
    decreases |cs|
  {
    if cs == [] then []
    else if Due(cs[0], now) && cs[0].start !in processed then
      [cs[0]] + Runs(cs[1..], now, processed + {cs[0].start})
    else Runs(cs[1..], now, processed)
  }

  /** The start times of some runs. */
  function Starts(rs: seq<Candidate>): set<int> {
    set i | 0 <= i < |rs| :: rs[i].start
  }

  /** No two runs share a start time. */
  predicate DistinctStarts(rs: seq<Candidate>) {
    forall i, j :: 0 <= i < j < |rs| ==> rs[i].start != rs[j].start
  }

  /** Every run of a pass is one of its candidates, is due, and has a start
      that was not recorded before the pass; no two runs share a start. */
  lemma {:induction false} RunsAreGuarded(cs: seq<Candidate>, now: int, processed: set<int>)
    ensures forall k :: 0 <= k < |Runs(cs, now, processed)| ==>
              Runs(cs, now, processed)[k] in cs && Due(Runs(cs, now, processed)[k], now)
                && Runs(cs, now, processed)[k].start !in processed
    ensures DistinctStarts(Runs(cs, now, processed))
    decreases |cs|
  {
    if cs != [] {
      var c := cs[0];
      if Due(c, now) && c.start !in processed {
        RunsAreGuarded(cs[1..], now, processed + {c.start});
        var rest := Runs(cs[1..], now, processed + {c.start});
        var rs := [c] + rest;
        forall k | 0 <= k < |rs| ensures rs[k] in cs {
          if k > 0 {
            assert rs[k] == rest[k - 1];
          }
        }
        forall i, j | 0 <= i < j < |rs| ensures rs[i].start != rs[j].start {
          assert rs[j] == rest[j - 1];
          if i > 0 {
            assert rs[i] == rest[i - 1];
          }
        }
      } else {
        RunsAreGuarded(cs[1..], now, processed);
      }
    }
  }

  /** A start time runs in a pass exactly when it was not recorded before
      and some candidate with that start is due. */
  lemma {:induction false} StartRunsIff(cs: seq<Candidate>, now: int, processed: set<int>, t: int)
    ensures t in Starts(Runs(cs, now, processed)) <==>
              t !in processed && exists i :: 0 <= i < |cs| && cs[i].start == t && Due(cs[i], now)
    decreases |cs|
  {
    if cs != [] {
      var c := cs[0];
      var rest := cs[1..];
      forall i | 0 <= i < |rest| ensures rest[i] == cs[i + 1] { }
      if Due(c, now) && c.start !in processed {
        StartRunsIff(rest, now, processed + {c.start}, t);
        var later := Runs(rest, now, processed + {c.start});
        assert Starts([c] + later) == {c.start} + Starts(later) by {
          forall u | u in Starts([c] + later) ensures u in {c.start} + Starts(later) {
            var i :| 0 <= i < |[c] + later| && ([c] + later)[i].start == u;
            if i > 0 {
              assert ([c] + later)[i] == later[i - 1];
            }
          }
          forall u | u in Starts(later) ensures u in Starts([c] + later) {
            var i :| 0 <= i < |later| && later[i].start == u;
            assert ([c] + later)[i + 1] == later[i];
          }
          assert ([c] + later)[0] == c;
        }
        if t != c.start && t !in processed && exists i :: 0 <= i < |cs| && cs[i].start == t && Due(cs[i], now) {
          var i :| 0 <= i < |cs| && cs[i].start == t && Due(cs[i], now);
          assert rest[i - 1].start == t;
        }
      } else {
        StartRunsIff(rest, now, processed, t);
        if t !in processed && exists i :: 0 <= i < |cs| && cs[i].start == t && Due(cs[i], now) {
          var i :| 0 <= i < |cs| && cs[i].start == t && Due(cs[i], now);
          assert i > 0;
          assert rest[i - 1].start == t;
        }
      }
    }
  }

  /** Two due events sharing a start time trigger a single run: the first. */
  lemma SharedStartRunsOnce(a: Candidate, b: Candidate, now: int, processed: set<int>)
    requires a.start == b.start && Due(a, now) && Due(b, now) && a.start !in processed
    ensures Runs([a, b], now, processed) == [a]
  {
    assert [a, b][1..] == [b];
    assert [b][1..] == [];
    assert b.start in processed + {a.start};
    assert Runs([b], now, processed + {a.start}) == [];
  }

  /** The state of `monitor_schedule`. */
  class Monitor {
    /** `processed_events` */
    var processed: set<int>
    /** The `run_ffmpeg` calls so far, in order. */
    var launched: seq<Candidate>

    /** Every start time recorded was handed to the encoder once, and no
        start time more than once. */
    ghost predicate Valid()
      reads this
    {
      processed == Starts(launched) && DistinctStarts(launched)
    }

    constructor ()
      ensures Valid() && processed == {} && launched == []
    {
      processed := {};
      launched := [];
    }

    /** One pass of the guard over the candidates at time `now`: returns the
        `(video_path, date)` handed to `run_ffmpeg`, in order. */
    method Pass(cs: seq<Candidate>, now: int) returns (calls: seq<(string, string)>)
      modifies this
      requires Valid()
      ensures Valid()
      ensures launched == old(launched) + Runs(cs, now, old(processed))
      ensures processed == old(processed) + Starts(Runs(cs, now, old(processed)))
      ensures |calls| == |Runs(cs, now, old(processed))|
      ensures forall k :: 0 <= k < |calls| ==>
                calls[k] == (Url(Runs(cs, now, old(processed))[k]), Runs(cs, now, old(processed))[k].date)
    {
      ghost var p0 := processed;
      ghost var l0 := launched;
      ghost var runs: seq<Candidate> := [];
      calls := [];
      for i := 0 to |cs|
        invariant runs + Runs(cs[i..], now, processed) == Runs(cs, now, p0)
        invariant processed == p0 + Starts(runs)
        invariant launched == l0 + runs
        invariant |calls| == |runs|
        invariant forall k :: 0 <= k < |calls| ==> calls[k] == (Url(runs[k]), runs[k].date)
      {
        var c := cs[i];
        assert cs[i..][0] == c && cs[i..][1..] == cs[i + 1..];
        if DayOf(c.start) == DayOf(now) && c.start <= now && c.start !in processed {
          calls := calls + [(Url(c), c.date)];
          StartsAppend(runs, [c]);
          assert Starts([c]) == {c.start} by {
            assert [c][0] == c;
          }
          ConsRuns(runs, c, Runs(cs[i + 1..], now, processed + {c.start}));
          runs := runs + [c];
          launched := launched + [c];
          processed := processed + {c.start};
        }
      }
      assert cs[|cs|..] == [];
      assert runs + [] == runs;
      assert runs == Runs(cs, now, p0);
      RunsAreGuarded(cs, now, p0);
      StartsAppend(l0, runs);
      DistinctAfterPass(l0, runs, p0);
    }
  }

  /** The starts of two histories together are the starts of each. */
  lemma StartsAppend(a: seq<Candidate>, b: seq<Candidate>)
    ensures Starts(a + b) == Starts(a) + Starts(b)
  {
    forall u | u in Starts(a + b) ensures u in Starts(a) + Starts(b) {
      var k :| 0 <= k < |a + b| && (a + b)[k].start == u;
      if k < |a| {
        assert (a + b)[k] == a[k];
      } else {
        assert (a + b)[k] == b[k - |a|];
      }
    }
    forall u | u in Starts(a) ensures u in Starts(a + b) {
      var k :| 0 <= k < |a| && a[k].start == u;
      assert (a + b)[k] == a[k];
    }
    forall u | u in Starts(b) ensures u in Starts(a + b) {
      var k :| 0 <= k < |b| && b[k].start == u;
      assert (a + b)[|a| + k] == b[k];
    }
  }

  lemma ConsRuns(done: seq<Candidate>, c: Candidate, rest: seq<Candidate>)
    ensures (done + [c]) + rest == done + ([c] + rest)
  {
  }

  /** Runs whose starts were not recorded, and are distinct, extend a
      history without repeating a start. */
  lemma DistinctAfterPass(history: seq<Candidate>, runs: seq<Candidate>, processed: set<int>)
    requires processed == Starts(history) && DistinctStarts(history) && DistinctStarts(runs)
    requires forall k :: 0 <= k < |runs| ==> runs[k].start !in processed
    ensures DistinctStarts(history + runs)
  {
    var all := history + runs;
    forall i, j | 0 <= i < j < |all| ensures all[i].start != all[j].start {
      if j >= |history| {
        assert all[j] == runs[j - |history|];
        if i < |history| {
          assert all[i] == history[i];
          assert all[i].start in Starts(history);
        } else {
          assert all[i] == runs[i - |history|];
        }
      } else {
        assert all[i] == history[i] && all[j] == history[j];
      }
    }
  }
}
