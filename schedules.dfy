/** Scheduled events as the schedule store hands them to the manifest
    generators, with times as integer microseconds on one clock, and the
    `sorted(events, key=lambda e: e['start_time'])` step they all begin with. */
module Schedules {

  /** One second, in microseconds. */
  const Second: int := 1_000_000

  /** One day, in microseconds. */
  const Day: int := 86_400 * Second

  /** `datetime.max.time()` of a date: 23:59:59.999999 after its midnight. */
  function EndOfDay(midnight: int): int {
    midnight + Day - 1
  }

  /** An event of a day's schedule: its `file_name` and its parsed
      `start_time` and `end_time`. */
  datatype Event = Event(fileName: string, start: int, end: int)

  /** `schedule[0]['events'] if schedule else []`: the events of the first
      record the store returns for a date, none when it returns nothing. */
  function EventsOf(records: seq<seq<Event>>): seq<Event> {
    if records == [] then [] else records[0]
  }

  predicate SortedByStart(es: seq<Event>) {
    forall i, j :: 0 <= i < j < |es| ==> es[i].start <= es[j].start
  }

  /** Places `e` before the first event that does not start earlier, so
      that an event keeps its place ahead of later ones with the same start. */
  function Insert(e: Event, es: seq<Event>): (r: seq<Event>)
    requires SortedByStart(es)
    ensures SortedByStart(r)
    ensures multiset(r) == multiset(es) + multiset{e}
    ensures r[0] == e || (es != [] && r[0] == es[0])
  {
    if es == [] || e.start <= es[0].start then
      SortedCons(e, es);
      [e] + es
    else
      var t := Insert(e, es[1..]);
      assert es == [es[0]] + es[1..];
      SortedCons(es[0], t);
      [es[0]] + t
  }

  /** An event no later than the head of a sorted list can go in front. */
  lemma SortedCons(x: Event, t: seq<Event>)
    requires SortedByStart(t)
    requires t != [] ==> x.start <= t[0].start
    ensures SortedByStart([x] + t)
  {
    var r := [x] + t;
    forall i, j | 0 <= i < j < |r| ensures r[i].start <= r[j].start {
      assert r[j] == t[j - 1];
      if i > 0 {
        assert r[i] == t[i - 1];
      } else {
        assert t[0].start <= t[j - 1].start;
      }
    }
  }

  /** `sorted(events, key=start_time)`: an insertion sort, stable like
      Python's, ordered by the start time. */
  function SortByStart(es: seq<Event>): (r: seq<Event>)
    ensures SortedByStart(r)
    ensures multiset(r) == multiset(es)
    ensures |r| == |es|
  {
    if es == [] then []
    else
      assert es == [es[0]] + es[1..];
      Insert(es[0], SortByStart(es[1..]))
  }

  /** The events of `es` that start at `t`, in their order. */
  function WithStart(es: seq<Event>, t: int): seq<Event> {
    if es == [] then []
    else (if es[0].start == t then [es[0]] else []) + WithStart(es[1..], t)
  }

  lemma WithStartCons(x: Event, s: seq<Event>, t: int)
    ensures WithStart([x] + s, t) == (if x.start == t then [x] else []) + WithStart(s, t)
  {
    assert ([x] + s)[0] == x && ([x] + s)[1..] == s;
  }

  /** Inserting `e` puts it ahead of every event with the same start. */
  lemma {:induction false} InsertWithStart(e: Event, es: seq<Event>, t: int)
    requires SortedByStart(es)
    ensures WithStart(Insert(e, es), t)
            == (if e.start == t then [e] else []) + WithStart(es, t)
  {
    if es == [] || e.start <= es[0].start {
      WithStartCons(e, es, t);
    } else {
      var tail := Insert(e, es[1..]);
      assert Insert(e, es) == [es[0]] + tail;
      var a := if es[0].start == t then [es[0]] else [];
      var b := if e.start == t then [e] else [];
      var w := WithStart(es[1..], t);
      WithStartCons(es[0], tail, t);
      InsertWithStart(e, es[1..], t);
      assert WithStart(Insert(e, es), t) == a + (b + w);
      assert WithStart(es, t) == a + w;
      assert a == [] || b == [];
      assert a + (b + w) == b + (a + w);
    }
  }

  /** The sort is stable: events with the same start keep their input order. */
  lemma {:induction false} SortStable(es: seq<Event>, t: int)
    ensures WithStart(SortByStart(es), t) == WithStart(es, t)
  {
    if es != [] {
      SortStable(es[1..], t);
      InsertWithStart(es[0], SortByStart(es[1..]), t);
    }
  }

  /** Sorting an already sorted list changes nothing. */
  lemma {:induction false} SortSorted(es: seq<Event>)
    requires SortedByStart(es)
    ensures SortByStart(es) == es
  {
    if es != [] {
      SortSorted(es[1..]);
      assert es == [es[0]] + es[1..];
    }
  }
}
