/** The per-file records of the event-velocity dataset and the time window
    that selects the events around a query timestamp.

    Timestamps and event times are reals: the float32 arithmetic of the
    dataset code is abstracted. */
module Recordings {

  /** One brightness-change event: pixel column, pixel row, polarity and
      time in microseconds (the columns x, y, p, t of the event array). */
  datatype Event = Event(x: int, y: int, p: int, t: real)

  /** One row of the range array: a time in seconds and a distance in metres. */
  datatype RangeReading = RangeReading(t: real, meters: real)

  /** The arrays one recording file provides: its events, its query
      timestamps in seconds, one trajectory row per query timestamp (a
      velocity in columns 3 .. 5) and its range readings. */
  datatype RawRecording = RawRecording(
    events: seq<Event>,
    timestamps: seq<real>,
    traj: seq<seq<real>>,
    rangeMeter: seq<RangeReading>)

  /** The record kept per file: the arrays of the file plus two columns
      derived once when it is loaded. */
  datatype Recording = Recording(
    events: seq<Event>,
    eventTimes: seq<real>,
    traj: seq<seq<real>>,
    timestamps: seq<real>,
    tsUs: seq<real>,
    rangeMeter: seq<RangeReading>)
  {
    /** eventTimes is the time column of events; tsUs is timestamps in microseconds. */
    predicate Valid()
    {
      eventTimes == Times(events) && tsUs == ToMicros(timestamps)
    }
  }

  const MicrosPerSecond: real := 1000000.0

  /** The time column of an event array. */
  function Times(events: seq<Event>): seq<real>
  {
    seq(|events|, i requires 0 <= i < |events| => events[i].t)
  }

  /** Seconds scaled to microseconds, element by element. */
  function ToMicros(ts: seq<real>): seq<real>
  {
    seq(|ts|, i requires 0 <= i < |ts| => ts[i] * MicrosPerSecond)
  }

  /** Builds the record of one file: the arrays are kept as they are,
      eventTimes is column t of the events and tsUs is timestamps times 10^6. */
  function Load(raw: RawRecording): (r: Recording)
    ensures r.Valid()
    ensures r.events == raw.events && r.traj == raw.traj
    ensures r.timestamps == raw.timestamps && r.rangeMeter == raw.rangeMeter
    ensures |r.eventTimes| == |raw.events|
    ensures forall i :: 0 <= i < |raw.events| ==> r.eventTimes[i] == raw.events[i].t
    ensures |r.tsUs| == |raw.timestamps|
    ensures forall i :: 0 <= i < |raw.timestamps| ==> r.tsUs[i] == raw.timestamps[i] * MicrosPerSecond
  {
    Recording(raw.events, Times(raw.events), raw.traj, raw.timestamps,
              ToMicros(raw.timestamps), raw.rangeMeter)
  }

  // The time window.

  /** The half-width of the window in microseconds: window_size * 1000. */
  function HalfWidth(windowSize: real): real
  {
    windowSize * 1000.0
  }

  /** An event time lies in the closed interval [lo, hi]. */
  predicate InInterval(t: real, lo: real, hi: real)
  {
    lo <= t && t <= hi
  }

  /** The boolean mask (times >= lo) & (times <= hi). */
  function Mask(times: seq<real>, lo: real, hi: real): seq<bool>
  {
    seq(|times|, i requires 0 <= i < |times| => times[i] >= lo && times[i] <= hi)
  }

  /** Boolean-mask indexing: the elements whose mask entry is set, in order. */
  function Select<T>(xs: seq<T>, mask: seq<bool>): seq<T>
    requires |mask| == |xs|
  {
    if xs == [] then []
    else
      var n := |xs| - 1;
      Select(xs[..n], mask[..n]) + (if mask[n] then [xs[n]] else [])
  }

  /** The positions where a mask is set, in ascending order. */
  function Positions(mask: seq<bool>): seq<nat>
  {
    if mask == [] then []
    else
      var n := |mask| - 1;
      Positions(mask[..n]) + (if mask[n] then [n] else [])
  }

  predicate StrictlyIncreasing(ps: seq<nat>)
  {
    forall i, j :: 0 <= i < j < |ps| ==> ps[i] < ps[j]
  }

  /** The events of a recording inside the closed window around `center`. */
  function WindowSlice(rec: Recording, center: real, windowSize: real): seq<Event>
    requires rec.Valid()
  {
    var lo := center - HalfWidth(windowSize);
    var hi := center + HalfWidth(windowSize);
    Select(rec.events, Mask(rec.eventTimes, lo, hi))
  }

  /** The positions of a mask are exactly its set entries, ascending. */
  lemma {:induction false} PositionsExact(mask: seq<bool>)
    ensures StrictlyIncreasing(Positions(mask))
    ensures forall j :: 0 <= j < |Positions(mask)| ==> Positions(mask)[j] < |mask|
    ensures forall i :: 0 <= i < |mask| ==> (mask[i] <==> i in Positions(mask))
  {
    if mask != [] {
      var n := |mask| - 1;
      var prefix := mask[..n];
      PositionsExact(prefix);
      var ps := Positions(prefix);
      assert Positions(mask) == ps + (if mask[n] then [n] else []);
      forall i | 0 <= i < n
        ensures mask[i] <==> i in Positions(mask)
      {
        assert prefix[i] == mask[i];
      }
    }
  }

  /** Mask indexing picks exactly the elements at the mask's positions. */
  lemma {:induction false} SelectAtPositions<T>(xs: seq<T>, mask: seq<bool>)
    requires |mask| == |xs|
    ensures |Select(xs, mask)| == |Positions(mask)|
    ensures forall j :: 0 <= j < |Positions(mask)| ==>
              Positions(mask)[j] < |xs| && Select(xs, mask)[j] == xs[Positions(mask)[j]]
  {
    PositionsExact(mask);
    if xs != [] {
      var n := |xs| - 1;
      SelectAtPositions(xs[..n], mask[..n]);
      var ps := Positions(mask[..n]);
      var sel := Select(xs[..n], mask[..n]);
      assert Positions(mask) == ps + (if mask[n] then [n] else []);
      assert Select(xs, mask) == sel + (if mask[n] then [xs[n]] else []);
      forall j | 0 <= j < |ps|
        ensures Select(xs, mask)[j] == xs[Positions(mask)[j]]
      {
        assert xs[..n][ps[j]] == xs[ps[j]];
      }
    }
  }

  /** The slice is the recording's events restricted to the positions whose
      time lies in [center - half, center + half], kept in their original
      order: a subsequence, holding every event inside the window, and
      nothing else. */
  lemma WindowSliceExact(rec: Recording, center: real, windowSize: real)
    requires rec.Valid()
    ensures var lo, hi := center - HalfWidth(windowSize), center + HalfWidth(windowSize);
            var ps := Positions(Mask(rec.eventTimes, lo, hi));
            var slice := WindowSlice(rec, center, windowSize);
            && StrictlyIncreasing(ps)
            && |slice| == |ps|
            && (forall j :: 0 <= j < |ps| ==> ps[j] < |rec.events| && slice[j] == rec.events[ps[j]])
            && (forall i :: 0 <= i < |rec.events| ==> (i in ps <==> InInterval(rec.events[i].t, lo, hi)))
  {
    var lo, hi := center - HalfWidth(windowSize), center + HalfWidth(windowSize);
    var mask := Mask(rec.eventTimes, lo, hi);
    PositionsExact(mask);
    SelectAtPositions(rec.events, mask);
  }

  /** An event is in the slice iff it is an event of the recording whose
      time lies in the closed window, inclusive at both ends. */
  lemma WindowMembership(rec: Recording, center: real, windowSize: real, e: Event)
    requires rec.Valid()
    ensures var lo, hi := center - HalfWidth(windowSize), center + HalfWidth(windowSize);
            e in WindowSlice(rec, center, windowSize) <==> e in rec.events && InInterval(e.t, lo, hi)
  {
    var lo, hi := center - HalfWidth(windowSize), center + HalfWidth(windowSize);
    var ps := Positions(Mask(rec.eventTimes, lo, hi));
    var slice := WindowSlice(rec, center, windowSize);
    WindowSliceExact(rec, center, windowSize);
    if e in slice {
      var j :| 0 <= j < |slice| && slice[j] == e;
      assert rec.events[ps[j]] == e;
      assert ps[j] in ps;
    }
    if e in rec.events && InInterval(e.t, lo, hi) {
      var i :| 0 <= i < |rec.events| && rec.events[i] == e;
      assert i in ps;
      var j :| 0 <= j < |ps| && ps[j] == i;
      assert slice[j] == e;
    }
  }

  /** The slice is empty iff no event of the recording lies in the window. */
  lemma WindowEmpty(rec: Recording, center: real, windowSize: real)
    requires rec.Valid()
    ensures var lo, hi := center - HalfWidth(windowSize), center + HalfWidth(windowSize);
            WindowSlice(rec, center, windowSize) == [] <==>
            forall i :: 0 <= i < |rec.events| ==> !InInterval(rec.events[i].t, lo, hi)
  {
    var lo, hi := center - HalfWidth(windowSize), center + HalfWidth(windowSize);
    var slice := WindowSlice(rec, center, windowSize);
    if slice != [] {
      WindowMembership(rec, center, windowSize, slice[0]);
    } else {
      forall i | 0 <= i < |rec.events|
        ensures !InInterval(rec.events[i].t, lo, hi)
      {
        WindowMembership(rec, center, windowSize, rec.events[i]);
      }
    }
  }
}
