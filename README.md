# EventVelocityDataset bookkeeping, modelled in Dafny

This project models the dataset class of an event-camera velocity-regression
pipeline (`EventVelocityDataset` in `src/dataset.py`). The class turns a folder
of recordings into training samples. Each recording holds events (pixel,
polarity, time in microseconds), query timestamps in seconds, one trajectory
row per timestamp and a range array. The model covers three parts:

- **Construction.** The recordings come in sorted file-name order. Each one
  becomes a record. `ts_us` (the timestamps times 10^6) and `event_times`
  (the time column of the events) are derived once, at load. Then nested
  loops append one `(file_idx, ts_idx, bin_idx)` entry per recording, per
  query timestamp and per bin. The constructor of
  `Dataset.EventVelocityDataset` performs these loops on a `seq` field, and
  its invariants tie them to the specification `SampleIndex.Index`.
- **The flat index.** `SampleIndex` defines the index by concatenation, the
  same way the loops build it. It also gives an arithmetic encoding and
  decoding of positions. The lemmas prove the length formula, the position of
  every entry, both round trips, and that every stored entry is in range.
- **Serving a sample.** `__getitem__` keeps the events whose time lies in the
  closed interval `[ts_us[t] - window_size*1000, ts_us[t] + window_size*1000]`.
  An empty slice becomes an all-zero `(bins, H, W)` grid; otherwise the slice
  is rasterized. Plane `bin_idx` is taken with a leading axis of size 1. The
  velocity is columns 3..5 of trajectory row `t`. The range is looked up with
  the timestamp in seconds. `Recordings` models the mask and the slice, and
  `Dataset.Assemble` models the rest.

The rasterizer (`events_to_voxel_grid`) and the range lookup
(`get_closest_range`) live in `utils`, which is not part of this model. Both
are parameters of type `Voxelizer` and `RangeLookup`, and the model assumes
nothing about what they return. Timestamps are `real`: the float32 arithmetic
is abstracted.

Files: `sample_index.dfy` (module `SampleIndex`), `recordings.dfy` (module
`Recordings`), `dataset.dfy` (module `Dataset`).

The code disagrees with its own comment in one place, and it leaves a few
conditions unchecked. The model follows the code:

- The comment at `src/dataset.py:12` says the window is "200 events
  before/after". The code windows by time (lines 64-67), and so does the model.
- The code checks neither that a recording has one trajectory row per
  timestamp nor that the rows have 6 columns. A short
  trajectory surfaces when `traj[ts_idx]` is subscripted, which the model
  reports as `TrajectoryIndexOutOfRange`. A short row gives a shorter
  velocity, following Python slice clamping (`PySlice`).
- The code also does not check that the rasterizer returns `bins` planes.
  `voxel[bin_idx]` on a shorter grid is `PlaneIndexOutOfRange`. This check
  comes before the trajectory lookup, as in the code (line 75 before line 76).

## Model

| member | source | states |
|---|---|---|
| `SampleIndex.Decode` | src/dataset.py:47-49 | any flat position below the total decodes to an entry whose file exists, whose timestamp index is below that file's timestamp count and whose bin is below `bins` |
| `SampleIndex.RowLength` | src/dataset.py:48-49 | `Row`, the inner loop's output, has exactly one entry per bin |
| `SampleIndex.RowAt` | src/dataset.py:48-49 | entry i of `Row(f, t, bins)` is `(f, t, i)` |
| `SampleIndex.BlockLength` | src/dataset.py:47-49 | `Block`, the entries of one recording, has `Q * bins` entries |
| `SampleIndex.BlockAt` | src/dataset.py:47-49 | within `Block(f, Q, bins)`, entry `(f, t, b)` sits at offset `t*bins + b` |
| `SampleIndex.IndexLength` | src/dataset.py:47-52 | `Index`, the whole sample list, has as many entries as `Total`, the sum over recordings of `Q * bins` |
| `SampleIndex.IndexAt` | src/dataset.py:19-49 | deterministic order: in `Index`, `(f, t, b)` sits at `(entries of files before f) + t*bins + b` for every in-range triple |
| `SampleIndex.DecodeEncode` | src/dataset.py:47-49 | the position of any in-range entry is below the total, and decoding it gives the entry back |
| `SampleIndex.EncodeDecode` | src/dataset.py:47-49 | every position below the total is the position of its decoding |
| `SampleIndex.IndexDecode` | src/dataset.py:47-57 | every entry of `Index` equals the arithmetic decoding of its position, so it names an existing file, timestamp and bin |
| `Recordings.Load` | src/dataset.py:35-45 | the record keeps the file's arrays unchanged; `event_times[i]` is the time of event i; `ts_us[i]` is `timestamps[i] * 10^6` |
| `Recordings.PositionsExact` | src/dataset.py:67-68 | `Positions` of a `Mask`: the set positions are ascending, in bounds, and are exactly the indices where the mask holds |
| `Recordings.SelectAtPositions` | src/dataset.py:68 | `Select` (boolean-mask indexing) yields exactly the elements at the mask's set positions, in order |
| `Recordings.WindowSliceExact` | src/dataset.py:62-68 | `WindowSlice` (`Select` of the events by the `Mask` of `event_times` between `center ∓ HalfWidth(window_size)`) is the recording's events at an ascending list of positions, and a position is listed iff its event time is in the closed window: a subsequence keeping every in-window event and nothing else |
| `Recordings.WindowMembership` | src/dataset.py:64-67 | an event is in `WindowSlice` iff it is an event of the recording and `t_center - window_size*1000 <= t <= t_center + window_size*1000` |
| `Recordings.WindowEmpty` | src/dataset.py:64-70 | `WindowSlice` is empty iff no event of the recording lies in the closed window |
| `Dataset.ZeroGrid` | src/dataset.py:71 | the zero grid has `bins` planes, each of shape `(H, W)` with every cell 0 |
| `Dataset.PySlice` | src/dataset.py:76 | Python slice semantics: with enough elements the slice is the `hi - lo` elements from `lo`; bounds past the end are clamped |
| `Dataset.Counts` | src/dataset.py:47 | one count per recording, equal to the length of its `ts_us` |
| `Dataset.Assemble` | src/dataset.py:60-80 | success iff the plane exists (always when the slice is empty) and the trajectory row exists; the image has one plane, all zero of shape `(H, W)` for an empty slice and otherwise plane `bin_idx` of the rasterized slice; the velocity is `traj[t][3:6]`, exactly `[traj[t][3], traj[t][4], traj[t][5]]` when the row has 6 columns; the range is looked up with `timestamps[t]` in seconds while the window is centred on `ts_us[t]` |
| `Dataset.EmptyWindowZeroImage` | src/dataset.py:64-75 | if no event lies within `window_size*1000` of `ts_us[t]` and the trajectory row exists, the sample succeeds and its image is all zeros of shape `(1, H, W)` whatever the rasterizer computes |
| `Dataset.EventVelocityDataset.constructor` | src/dataset.py:8-49 | the records are the loaded files in order, the defaults are `shape=(200, 200)`, `bins=5`, `window_size=200`, and the sample list is `SampleIndex.Index` over their timestamp counts, built by the nested loops |
| `Dataset.EventVelocityDataset.AppendEntries` | src/dataset.py:47-49 | the two inner loops append exactly `SampleIndex.Block(file_idx, Q, bins)` (every `(file_idx, t, b)` for `t < Q`, `b < bins`, timestamp by timestamp, bin by bin) to the sample list and change nothing else |
| `Dataset.EventVelocityDataset.Length` | src/dataset.py:51-52 | `__len__` is the sum over recordings of `len(ts_us) * bins` |
| `Dataset.EventVelocityDataset.GetItem` | src/dataset.py:54-80 | fails with `SampleIndexOutOfRange` iff `index >= len`; otherwise the entry is the arithmetic decoding of `index`, it is in range for the records, and the result is that entry's assembled sample |
| `Dataset.EventVelocityDataset.Servable` | src/dataset.py:57-78 | every index below `len` is served without error when each recording has a trajectory row per timestamp and the rasterizer yields at least `bins` planes |

## Left out

- Directory listing, sorting of file names and `np.load` decoding (src/dataset.py:17-33) are file I/O. The constructor takes the decoded recordings as a sequence already in sorted order.
- Tensor conversions, float32 and int8 casts and device placement (`.to(device)`) are dtype and device plumbing. Times are unbounded reals, so float32 rounding in `timestamps * 1e6` and in the window bounds is not modelled.
- The bodies of `events_to_voxel_grid` and `get_closest_range` come from `utils`, which is not part of this model. This leaves out bilinear binning, pixel clipping, the tie-break rule and the failure on an empty range array.
- Dataset.Assemble: says nothing about the values of a non-empty sample's image or about the range value, except which function computes them from which arguments, because those functions are not part of this model.
- Dataset.EventVelocityDataset.GetItem: takes a `nat` index, so Python's negative indexing of `self.samples` is not modelled.
- The constructor's `shape` tuple is split into `height` and `width`, and its `device` argument is dropped with the placement it controls.
- The `Dataset` base class, batching and worker parallelism are external. `GetItem` is a function of the dataset's fields, so calls on the same state give the same result.
- Dataset.EventVelocityDataset.AppendEntries: is meant to be called only from the constructor. It neither requires nor ensures `Valid()`, so a client calling it after construction would break the link between `samples` and `sequences`. The model does not prevent that call.
