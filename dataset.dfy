/** The event-velocity dataset: the records of all recordings, the flat
    sample index built over them, and the assembly of one training sample
    (a single-bin event image, a range value and a velocity) for a position
    of that index.

    The voxel-grid rasterizer and the closest-range lookup are not part of
    this model: they are passed in as functions (`Voxelizer`, `RangeLookup`)
    and nothing is assumed about what they compute. */
module Dataset {
  import opened Recordings
  import opened SampleIndex

  /** A height x width image. */
  type Plane = seq<seq<real>>

  /** A stack of planes, one per temporal bin: shape (bins, height, width). */
  type Grid = seq<Plane>

  /** events_to_voxel_grid(events, shape = (height, width), bins). */
  type Voxelizer = (seq<Event>, nat, nat, nat) -> Grid

  /** get_closest_range(range array, time in seconds). */
  type RangeLookup = (seq<RangeReading>, real) -> real

  /** What indexing can fail with. The first is list indexing past the end
      of the sample index; the other two are tensor subscripts that are out
      of range when the rasterizer yields fewer planes than bin_idx needs, or
      when a recording has fewer trajectory rows than query timestamps. */
  datatype Error = SampleIndexOutOfRange | PlaneIndexOutOfRange | TrajectoryIndexOutOfRange

  datatype Result<T> = Success(value: T) | Failure(error: Error)

  /** One training sample: an image of shape (1, height, width), the range
      value and the velocity. */
  datatype Sample = Sample(image: Grid, range: real, velocity: seq<real>)

  /** A plane of shape (height, width) whose every cell is zero. */
  predicate IsZeroPlane(p: Plane, height: nat, width: nat)
  {
    |p| == height &&
    forall y :: 0 <= y < height ==> |p[y]| == width && forall x :: 0 <= x < width ==> p[y][x] == 0.0
  }

  /** torch.zeros((bins, height, width)). */
  function ZeroGrid(bins: nat, height: nat, width: nat): (g: Grid)
    ensures |g| == bins
    ensures forall k :: 0 <= k < bins ==> IsZeroPlane(g[k], height, width)
  {
    seq(bins, _ => seq(height, _ => seq(width, _ => 0.0)))
  }

  /** Python slicing s[lo:hi] for 0 <= lo <= hi: both bounds are clamped to |s|. */
  function PySlice<T>(s: seq<T>, lo: nat, hi: nat): (r: seq<T>)
    requires lo <= hi
    ensures |s| >= hi ==> |r| == hi - lo && forall i :: 0 <= i < hi - lo ==> r[i] == s[lo + i]
    ensures lo < |s| < hi ==> r == s[lo..]
    ensures |s| <= lo ==> r == []
  {
    var n := |s|;
    s[if lo < n then lo else n .. if hi < n then hi else n]
  }

  /** The number of query timestamps of each recording. */
  function Counts(recs: seq<Recording>): (c: seq<nat>)
    ensures |c| == |recs|
    ensures forall i :: 0 <= i < |recs| ==> c[i] == |recs[i].tsUs|
  {
    seq(|recs|, i requires 0 <= i < |recs| => |recs[i].tsUs|)
  }

  lemma CountsSnoc(recs: seq<Recording>, rec: Recording)
    ensures Counts(recs + [rec]) == Counts(recs) + [|rec.tsUs|]
  {
  }

  /** The sample for timestamp tsIdx and bin binIdx of one recording: the
      events in the window around ts_us[tsIdx] are rasterized (or replaced by
      an all-zero grid when there are none), plane binIdx is taken, velocity
      is columns 3 .. 5 of trajectory row tsIdx and the range is looked up
      with the timestamp in seconds. */
  function Assemble(rec: Recording, tsIdx: nat, binIdx: nat,
                    height: nat, width: nat, bins: nat, windowSize: real,
                    voxelize: Voxelizer, closestRange: RangeLookup): (r: Result<Sample>)
    requires rec.Valid() && tsIdx < |rec.timestamps| && binIdx < bins
    ensures var slice := WindowSlice(rec, rec.tsUs[tsIdx], windowSize);
            var planes := if slice == [] then bins else |voxelize(slice, height, width, bins)|;
            && (r.Success? <==> binIdx < planes && tsIdx < |rec.traj|)
            && (r.Failure? ==> r.error == if binIdx >= planes then PlaneIndexOutOfRange
                                          else TrajectoryIndexOutOfRange)
    ensures r.Success? ==> |r.value.image| == 1
    ensures r.Success? && WindowSlice(rec, rec.tsUs[tsIdx], windowSize) == [] ==>
              IsZeroPlane(r.value.image[0], height, width)
    ensures r.Success? && WindowSlice(rec, rec.tsUs[tsIdx], windowSize) != [] ==>
              r.value.image[0] == voxelize(WindowSlice(rec, rec.tsUs[tsIdx], windowSize), height, width, bins)[binIdx]
    ensures r.Success? ==> r.value.velocity == PySlice(rec.traj[tsIdx], 3, 6)
    ensures r.Success? && |rec.traj[tsIdx]| >= 6 ==>
              r.value.velocity == [rec.traj[tsIdx][3], rec.traj[tsIdx][4], rec.traj[tsIdx][5]]
    ensures r.Success? ==> r.value.range == closestRange(rec.rangeMeter, rec.timestamps[tsIdx])
  {
    var slice := WindowSlice(rec, rec.tsUs[tsIdx], windowSize);
    var voxel := if |slice| == 0 then ZeroGrid(bins, height, width)
                 else voxelize(slice, height, width, bins);
    if binIdx >= |voxel| then Failure(PlaneIndexOutOfRange)
    else if tsIdx >= |rec.traj| then Failure(TrajectoryIndexOutOfRange)
    else
      var velocity := PySlice(rec.traj[tsIdx], 3, 6);
      var range := closestRange(rec.rangeMeter, rec.timestamps[tsIdx]);
      Success(Sample([voxel[binIdx]], range, velocity))
  }

  /** When no event of the recording lies within window_size * 1000
      microseconds of ts_us[tsIdx], the image is all zeros of shape
      (1, height, width), whatever the rasterizer would compute. */
  lemma EmptyWindowZeroImage(rec: Recording, tsIdx: nat, binIdx: nat,
                             height: nat, width: nat, bins: nat, windowSize: real,
                             voxelize: Voxelizer, closestRange: RangeLookup)
    requires rec.Valid() && tsIdx < |rec.timestamps| && tsIdx < |rec.traj| && binIdx < bins
    requires forall i :: 0 <= i < |rec.events| ==>
               !InInterval(rec.events[i].t, rec.tsUs[tsIdx] - HalfWidth(windowSize),
                           rec.tsUs[tsIdx] + HalfWidth(windowSize))
    ensures var r := Assemble(rec, tsIdx, binIdx, height, width, bins, windowSize, voxelize, closestRange);
            r.Success? && |r.value.image| == 1 && IsZeroPlane(r.value.image[0], height, width)
  {
    WindowEmpty(rec, rec.tsUs[tsIdx], windowSize);
  }

  /** The dataset: the records of the recordings, in load order, and the
      flat sample index over them. */
  class EventVelocityDataset {
    const height: nat
    const width: nat
    const bins: nat
    const windowSize: real
    var sequences: seq<Recording>
    var samples: seq<Triple>

    ghost predicate Valid()
      reads this
    {
      && (forall i :: 0 <= i < |sequences| ==> sequences[i].Valid())
      && samples == Index(Counts(sequences), bins)
      && |samples| == Total(Counts(sequences), bins)
    }

    /** Loads the recordings (already in sorted file-name order) and appends
        one (file_idx, ts_idx, bin_idx) entry per recording, per query
        timestamp and per bin. */
    constructor (files: seq<RawRecording>, height: nat := 200, width: nat := 200,
                 bins: nat := 5, windowSize: real := 200.0)
      ensures Valid()
      ensures this.height == height && this.width == width
      ensures this.bins == bins && this.windowSize == windowSize
      ensures |sequences| == |files|
      ensures forall i :: 0 <= i < |files| ==> sequences[i] == Load(files[i])
      ensures samples == Index(Counts(sequences), bins)
    {
      this.height := height;
      this.width := width;
      this.bins := bins;
      this.windowSize := windowSize;
      sequences := [];
      samples := [];
      new;
      var fileIdx := 0;
      while fileIdx < |files|
        invariant 0 <= fileIdx <= |files|
        invariant |sequences| == fileIdx
        invariant forall i :: 0 <= i < fileIdx ==> sequences[i] == Load(files[i])
        invariant forall i :: 0 <= i < fileIdx ==> sequences[i].Valid()
        invariant samples == Index(Counts(sequences), bins)
      {
        var rec := Load(files[fileIdx]);
        CountsSnoc(sequences, rec);
        IndexSnoc(Counts(sequences), |rec.tsUs|, bins);
        sequences := sequences + [rec];
        AppendEntries(fileIdx, |rec.tsUs|);
        fileIdx := fileIdx + 1;
      }
      IndexLength(Counts(sequences), bins);
    }

    /** The two inner loops for one recording with q query timestamps:
        appends (fileIdx, t, b) for every t < q and b < bins, timestamp by
        timestamp and bin by bin. Only the constructor calls it. */
    method AppendEntries(fileIdx: nat, q: nat)
      modifies this`samples
      ensures samples == old(samples) + Block(fileIdx, q, bins)
    {
      var tsIdx := 0;
      while tsIdx < q
        invariant 0 <= tsIdx <= q
        invariant samples == old(samples) + Block(fileIdx, tsIdx, bins)
      {
        var binIdx := 0;
        while binIdx < bins
          invariant 0 <= binIdx <= bins
          invariant samples == old(samples) + Block(fileIdx, tsIdx, bins) + Row(fileIdx, tsIdx, binIdx)
        {
          samples := samples + [Triple(fileIdx, tsIdx, binIdx)];
          binIdx := binIdx + 1;
        }
        tsIdx := tsIdx + 1;
      }
    }

    /** __len__: the sum over the recordings of (query timestamps) * bins. */
    function Length(): (n: nat)
      reads this
      requires Valid()
      ensures n == Total(Counts(sequences), bins)
    {
      |samples|
    }

    /** __getitem__: positions past the end fail; any other position is the
        sample for the entry the arithmetic decoding of the position names,
        and that entry is in range for the records. */
    function GetItem(index: nat, voxelize: Voxelizer, closestRange: RangeLookup): (r: Result<Sample>)
      reads this
      requires Valid()
      ensures r == Failure(SampleIndexOutOfRange) <==> index >= Length()
      ensures index < Length() ==>
                var e := Decode(Counts(sequences), bins, index);
                && e.fileIdx < |sequences| && e.tsIdx < |sequences[e.fileIdx].timestamps| && e.binIdx < bins
                && r == Assemble(sequences[e.fileIdx], e.tsIdx, e.binIdx, height, width, bins,
                                 windowSize, voxelize, closestRange)
    {
      if index >= |samples| then Failure(SampleIndexOutOfRange)
      else
        IndexDecode(Counts(sequences), bins, index);
        var e := samples[index];
        Assemble(sequences[e.fileIdx], e.tsIdx, e.binIdx, height, width, bins,
                 windowSize, voxelize, closestRange)
    }

    /** Every position below Length() is served without error when each
        recording has a trajectory row per query timestamp and the
        rasterizer yields at least `bins` planes. */
    lemma Servable(index: nat, voxelize: Voxelizer, closestRange: RangeLookup)
      requires Valid() && index < Length()
      requires forall i :: 0 <= i < |sequences| ==> |sequences[i].traj| >= |sequences[i].timestamps|
      requires forall evs :: |voxelize(evs, height, width, bins)| >= bins
      ensures GetItem(index, voxelize, closestRange).Success?
    {
    }
  }
}
