# GNC-A Caribbean scripts: a Dafny model of the core

This project models the non-graphical core of the GNC-A Caribbean training
scripts and proves properties about it:

- **The streamline tracer** in `NWP/script_14.py`. It works on a regular
  grid of velocities. It seeds a streamline at the first grid point the
  occupancy mask still marks free, then marches forward and backward with
  bilinear interpolation. It stops each branch at the domain edge, at a
  closed loop, or at the length cap. Finally it stamps the cells the line
  crossed. Module `Streamlines` holds the tracer; module `OccupancyMask`
  holds the mask.
- **The bookkeeping of the GOES-R animation loop** in
  `Animation/Scripts/script_animation.py`. This covers:
  - reading the `YYYYMMDDHHMM` strings;
  - the `while date_loop <= date_end` walk;
  - the zero-padded band label and the band-to-colour-table classifier;
  - the 24 HTML frames, filled from the newest images and padded with the
    last one.

  Module `Animation` holds this, and module `Timeline` holds the time walk.
- **The GFS forecast loop** in `NWP/script_09.py`: the forecast hours, the
  `f000`-style GRIB names, the files skipped when absent, and the image
  names. This is module `Forecast`.
- **The nearest-grid-index subsetting** of the Miscellaneous scripts: the
  `argmin(|c - t|)` lookups, the row and column windows, the wrap-around
  window of the advected-TPW script, `squeeze`, and the zero-to-NaN mask.
  This is module `Subset`.
- **The date text cut out of file names** with `find` and slices, and how
  it is laid out (module `FileNames`).

Python's own behaviour is modelled where the scripts rely on it:

- clipped slices, `str.find` and `range` (module `PySeq`, and `Timeline`);
- `int()` truncation toward zero and `%` (module `PyNum`);
- `int()` parsing, `str()` and `str.zfill` (module `Decimal`);
- the `ValueError` and `IndexError` exits (module `Outcomes`).

Reals stand for floats. The error paths the scripts reach on their own
inputs are modelled as `Result` values. The exceptions are the tracer's
assumptions about its arguments, which are preconditions listed under
"## Left out": velocity arrays of the grid's shape, evenly spaced ascending
axes, and a stamp spacing of at least 1.

Where descriptions of the tracer and its code disagree, the model follows
the code:

- **Degenerate grids.** A degenerate grid is not rejected up front. An axis
  with a single point gives a mask that is used everywhere, so the tracer
  returns no streamline (`Streamlines.Trace`, `Streamlines.CalmFieldAllUsed`).
  An empty axis raises IndexError.
- **No clamping needed, in exact arithmetic.** With exact reals the
  interpolation never needs clamping. The open domain box the marcher checks
  before each step already keeps both corner indices in `0 .. n-2`
  (`Streamlines.Corner`, `Streamlines.BranchCells`). With floats, a point
  just below `x[-1]` can round to index `nx-1`, and then the read of
  `u[j,i+1]` is out of range. Rounding is not modelled (see the floats line
  under "## Left out").

## Model

| member | source | states |
|---|---|---|
| Streamlines.XAxis | NWP/script_14.py:60-62 | a 1-D x argument is used as given; a mesh contributes its first row, and an empty mesh is an IndexError |
| Streamlines.YAxis | NWP/script_14.py:61-63 | a 1-D y argument is used as given; a mesh contributes its first column, and raises IndexError exactly when some row is empty |
| Streamlines.MeshgridAxes | NWP/script_14.py:41-43 | for every pair of axes, taking the axes of their meshgrid gives them back, and an empty meshgrid raises IndexError where numpy would |
| Streamlines.TraceCoords | NWP/script_14.py:37-89 | the constructor on 1-D or meshgrid coordinates: it fails with IndexError exactly when an axis cannot be taken or is empty, and otherwise traces on the extracted axes until every cell is used |
| Streamlines.StepSpan | NWP/script_14.py:66-67 | the spacing `(x[-1]-x[0])/(len(x)-1)` times the number of gaps spans the axis, and it is positive on an ascending axis |
| Streamlines.Corner | NWP/script_14.py:94-100 | for a point strictly inside the axis, the truncated index lies in `0 .. n-2` and its cell brackets the point |
| Streamlines.NodeCorner | NWP/script_14.py:94-100 | at an interior grid node of a regular axis, the corner index is that node and the fractional part is zero |
| Streamlines.Bilinear | NWP/script_14.py:103-111 | with fractions in [0,1] the blend lies between the smallest and largest corner value, and at fraction (0,0) it is the lower-left corner |
| Streamlines.Velocity | NWP/script_14.py:92-111 | each interpolated component is bounded by the four corner values of the cell that holds the point |
| Streamlines.VelocityAtNode | NWP/script_14.py:92-111 | interpolating at an interior grid node returns that node's velocity |
| Streamlines.UniformVelocity | NWP/script_14.py:92-111 | a uniform field interpolates to its constant value everywhere in the box |
| OccupancyMask.Stamp | NWP/script_14.py:113 | the stamped block (clipped to the grid like a slice assignment) is set, every other cell keeps its value, and the mask only grows |
| Streamlines.StampAt | NWP/script_14.py:113 | stamping at a point keeps the grid shape, only grows the mask, and marks the point's cell |
| OccupancyMask.StampAll | NWP/script_14.py:113 | stamping a list of corners only grows the mask and marks every corner inside the grid |
| OccupancyMask.StampAllSnoc | NWP/script_14.py:113 | stamping a list equals stamping its prefix and then the last corner, so the list form agrees with one stamp per step |
| OccupancyMask.UnusedShrinks | NWP/script_14.py:84-89 | marking a cell that was free strictly lowers the number of free cells |
| OccupancyMask.FirstFree | NWP/script_14.py:84-89 | there is no result iff every cell is used; otherwise the result is free and every cell before it in row-major order is used |
| OccupancyMask.FreeAfterFirst | NWP/script_14.py:84-89 | once the first free cell is used, every cell still free was free before and comes later in row-major order |
| Streamlines.DetectLoop | NWP/script_14.py:165-171 | true iff some earlier point of the branch is closer than 0.9·dr to its newest point |
| Streamlines.AnyCloseBefore | NWP/script_14.py:167-170 | the scan over the first `n` points answers whether one of them is close to the newest point |
| Streamlines.StepsSnoc | NWP/script_14.py:146-153 | one more step from the last point inside the box extends a valid march |
| Streamlines.NoEarlyStopSnoc | NWP/script_14.py:157-161 | a point appended while neither the loop test nor the length cap fired keeps the march free of early stops |
| Streamlines.HalfStreamline | NWP/script_14.py:130-163 | each point is one interpolated step from the previous one, every step starts inside the box, the march ends only at the box edge, a loop or the length cap, and it holds at most `maxLen/2 + 1` points |
| Streamlines.BranchCells | NWP/script_14.py:146-147 | every cell a branch visits has row `< ny-1` and column `< nx-1`, so the corner `(i+1, j+1)` read by the interpolation exists |
| Streamlines.Join | NWP/script_14.py:125-128 | the joined line is the reversed backward branch, then the seed, then the forward branch |
| Streamlines.JoinSplit | NWP/script_14.py:125-128 | both branches are recovered from the joined line, so joining loses nothing |
| Streamlines.JoinedBranches | NWP/script_14.py:117-128 | reading the joined line outward from the seed gives back two valid marches, one in each direction |
| Streamlines.MakeStreamline | NWP/script_14.py:117-128 | both branches are valid half-streamlines from the seed, each within the length cap, and the line is their join |
| OccupancyMask.Fill | NWP/script_14.py:72-75 | `m[r0:r1, c0:c1] = True` sets exactly the clipped block, counting negative bounds from the end, and keeps every other cell |
| OccupancyMask.Blank | NWP/script_14.py:71 | `np.zeros` of the grid's shape has every cell free, `rows·cols` of them |
| Streamlines.BorderMask | NWP/script_14.py:71-75 | the zero mask after the four border assignments is used exactly on the outer rows and columns |
| Streamlines.MarkColumn | NWP/script_14.py:79-81 | the inner loop over one column sets exactly the calm points among the rows visited |
| Streamlines.MarkCalm | NWP/script_14.py:77-81 | the double loop sets exactly the calm points of the columns visited and keeps every other cell |
| Streamlines.InitialMask | NWP/script_14.py:71-81 | built from the zero mask, the border assignments and the calm loop, a cell starts used iff it is on the outer border or both velocity components there are zero |
| Streamlines.CalmFieldAllUsed | NWP/script_14.py:77-81 | a field that is zero everywhere starts with every cell used |
| Streamlines.Points | NWP/script_14.py:125-128 | a streamline's points number back + 1 + forward, with the seed's grid point in the middle |
| Streamlines.After | NWP/script_14.py:84-89 | recording a streamline only grows the mask |
| Streamlines.AfterCoversSeed | NWP/script_14.py:84-89 | after a streamline is recorded, its own seed cell is used |
| Streamlines.ReplaysSnoc | NWP/script_14.py:84-89 | a run of the seeding loop extended by one more streamline is again a run |
| Streamlines.SeedUsed | NWP/script_14.py:84-89 | from a mask whose border is used, as the initial mask's is, each seed was free before its streamline, is used after it, and the border stays used |
| Streamlines.Round | NWP/script_14.py:84-89 | each pass of the seeding loop strictly lowers the number of free cells, which is why the loop ends |
| Streamlines.ReplaysFromFull | NWP/script_14.py:84-89 | from a mask with every cell used, the loop records nothing and leaves the mask alone |
| Streamlines.SeedsUnused | NWP/script_14.py:84-89 | every seed of a run from a mask with a used border was free in that starting mask |
| Streamlines.SeedsInOrder | NWP/script_14.py:84-89 | the seeds of a run come in strictly increasing row-major order |
| Streamlines.DrawAll | NWP/script_14.py:84-89 | the `while True` loop from a mask with a used border stops only with every cell used; what it drew is a run of the seeding loop from that mask, and nothing at all when the mask starts full |
| Streamlines.Trace | NWP/script_14.py:37-89 | an empty axis raises IndexError; otherwise the loop ends with every cell used, the streamlines are a run of the seeding loop from the initial mask, and there are none when that mask is already full |
| Timeline.TimeSteps | Animation/Scripts/script_animation.py:72-79 | the loop visits `ini + k·interval` for each `k` in turn while it is `<= end`, and the next value would pass `end` |
| Timeline.TimeStepsCount | Animation/Scripts/script_animation.py:428 | the loop runs `(end - ini) // interval + 1` times, or not at all when `ini > end` |
| Timeline.TimeStepsReachEnd | Animation/Scripts/script_animation.py:428 | when the interval divides the span, the last value visited is exactly `end` |
| Timeline.TimeStepsIncreasing | Animation/Scripts/script_animation.py:428 | the visited times strictly increase |
| Timeline.PyRange | NWP/script_09.py:32 | `range` with a zero step raises ValueError; otherwise it yields `start + k·step`, all on the near side of `stop`, and the next value would reach it |
| Timeline.RangeIsInclusiveLoop | NWP/script_09.py:32 | with a positive step, `range(ini, end + 1, step)` visits exactly what the animation's `while t <= end` loop visits |
| Forecast.ForecastHours | NWP/script_09.py:32 | the forecast hours are the inclusive walk from start to end, and a zero step is a ValueError. A negative step yields `ini + k·step`, each above `end + 1`, stopping at the first value at or below `end + 1` |
| Forecast.ForecastHoursIncreasing | NWP/script_09.py:32 | with a positive step the hours are visited in ascending order |
| Forecast.ConfiguredHours | NWP/script_09.py:26-32 | the configured loop visits hours 0, 3, …, 24 |
| Forecast.GribName | NWP/script_09.py:35 | the name is the path followed by the hour padded to at least three characters, and `int()` of that suffix gives the hour back |
| Forecast.GribNameInjective | NWP/script_09.py:35 | two hours never share a GRIB file name |
| Forecast.GribNameThreeDigits | NWP/script_09.py:35 | an hour below 1000 gets exactly three zero-padded digits |
| Forecast.ConfiguredNames | NWP/script_09.py:23-35 | hours 0, 3 and 24 map to `…f000`, `…f003` and `…f024` |
| Forecast.Processed | NWP/script_09.py:38 | the processed hours are exactly the hours whose file exists, at most as many as were visited, in ascending order when the loop was |
| Forecast.FilterIncreasing | NWP/script_09.py:38 | skipping hours keeps the survivors ascending |
| Forecast.ImageName | NWP/script_09.py:119 | the image name embeds `str(hour)` between the fixed prefix and `.png` |
| Forecast.ImageNameInjective | NWP/script_09.py:119 | two hours never save to the same image |
| Animation.ParseMoment | Animation/Scripts/script_animation.py:68-69 | reading the five fields succeeds iff each of the five slices is an optionally signed numeral, and otherwise raises ValueError (always on 10 characters or fewer); on a string whose first 12 characters are digits it gives the instant those fields spell |
| Animation.FormatMoment | Animation/Scripts/script_animation.py:86 | `strftime('%Y%m%d%H%M')` of a valid instant has 12 characters, all digits |
| Animation.ParseFormatMoment | Animation/Scripts/script_animation.py:68-69 | reading back a formatted instant gives the same instant |
| Animation.BandLabel | Animation/Scripts/script_animation.py:96 | the label is at least two characters wide, `int()` gives the band id back, and ids 0 to 9 gain a leading zero |
| Animation.Classify | Animation/Scripts/script_animation.py:171-205 | every band gets a display configuration; thermal bands (above 6) subtract 273.15 and use 10-degree ticks, and visible bands use the range [0,1] with 0.1 ticks |
| Animation.ClassifyPartition | Animation/Scripts/script_animation.py:171-205 | the four colour tables' band ranges partition the integers, and the classifier picks exactly the one whose range holds the band |
| Animation.ClassifyLabel | Animation/Scripts/script_animation.py:171 | classifying a label fails exactly when `int(band)` fails |
| Animation.ClassifyBandLabel | Animation/Scripts/script_animation.py:96-171 | padding the band id never changes the configuration chosen for it |
| Animation.FrameName | Animation/Scripts/script_animation.py:408-409 | the frame name embeds the 1-based frame number between `img_` and `.png` |
| Animation.FrameNameInjective | Animation/Scripts/script_animation.py:408-409 | different frame numbers name different files |
| Animation.KeptFrames | Animation/Scripts/script_animation.py:401-404 | `files[-24:]` keeps the last `min(24, len)` files, in order |
| Animation.FrameCopies | Animation/Scripts/script_animation.py:407-422 | no image raises IndexError; otherwise there are exactly 24 copies, frame `k` takes the k-th kept image, and the frames past the last kept image repeat it |
| Animation.FrameCopiesDistinct | Animation/Scripts/script_animation.py:407-422 | the 24 copies write 24 different files |
| Animation.NewestFramesShown | Animation/Scripts/script_animation.py:397-410 | each of the newest 24 images is copied to the frame matching its position |
| Subset.NearestIndex | Miscellaneous/script_02.py:29-34 | an empty coordinate array is a ValueError; otherwise the index is at least as close to the target as any other, and is the first such index |
| Subset.NearestUnique | Miscellaneous/script_02.py:29-34 | the nearest index is unique, so the first-minimum tie rule decides every case |
| Subset.Locate | Miscellaneous/script_05.py:32-37 | the four window indices are the nearest indices to the extent's bounds, and an empty axis is a ValueError |
| Subset.SliceLen | Miscellaneous/script_05.py:40 | a clipped slice of an axis of length `n` has `hi - lo` elements when in range, and none when `lo > hi` |
| Subset.Slice2 | Miscellaneous/script_01.py:50 | `data[r0:r1, c0:c1]` holds the clipped rows and columns, each cell taken from the matching offset of the original |
| Subset.Slice2Shape | Miscellaneous/script_02.py:37 | with in-range bounds, the window has `r1 - r0` rows of `c1 - c0` cells, and cell `(a, b)` is `m[r0 + a][c0 + b]` |
| Subset.HStack | Miscellaneous/script_01.py:46 | stacking side by side needs equal row counts (ValueError otherwise), and each row is the left row followed by the right one |
| Subset.WrapWindow | Miscellaneous/script_01.py:44-46 | the wrapped window has one row per selected latitude, and each row is columns `c0..2499` followed by `0..c1` |
| Subset.AlpwSubset | Miscellaneous/script_01.py:36-50 | an empty axis is a ValueError; an eastern bound above 20 takes the wrapped window, and otherwise the plain window |
| Subset.AnomalySubset | Miscellaneous/script_02.py:37 | the result is the window of time step 0; an empty cube is an IndexError and an empty axis a ValueError |
| Subset.AscendingSubset | Miscellaneous/script_05.py:40 | the blended products slice rows `latli:latui`, in ascending latitude order |
| Subset.DropOnes | Miscellaneous/script_04.py:40 | dropping unit axes keeps every other length, keeps the element count, and leaves no axis of length 1 |
| Subset.DropOnesSingle | Miscellaneous/script_04.py:40 | a single axis vanishes iff its length is 1 |
| Subset.DropOnesConcat | Miscellaneous/script_04.py:40 | dropping unit axes from a concatenation drops them from each part in order, which with `DropOnesSingle` fixes the order and repetitions of the kept axes |
| Subset.SqueezeAxes | Miscellaneous/script_04.py:40 | squeezing an array of shape `s + t` keeps the non-unit axes of `s`, then those of `t` |
| Subset.Squeeze | Miscellaneous/script_04.py:40 | `squeeze` keeps the data, keeps the array well formed, and keeps exactly the non-unit axes |
| Subset.SqueezeIdempotent | Miscellaneous/script_04.py:40 | squeezing twice is the same as squeezing once |
| Subset.DropOnesFixed | Miscellaneous/script_04.py:40 | a shape without unit axes is left unchanged |
| Subset.Window3 | Miscellaneous/script_04.py:37 | `[:, r0:r1, c0:c1]` keeps every time step and cuts each one with the same window |
| Subset.FromCube | Miscellaneous/script_04.py:37 | a cube becomes a well-formed array of shape `[t, rows, cols]` |
| Subset.TrendSubset | Miscellaneous/script_04.py:37-40 | the squeezed trend window keeps the windowed data in order, and its shape is `[t, h, v]` in that order with each length-1 axis removed |
| Subset.MaskZeros | Miscellaneous/script_06.py:42 | exactly the zero samples become missing, every other sample is kept, and no zero remains |
| Subset.MaskZerosIdempotent | Miscellaneous/script_06.py:42 | masking twice is the same as masking once |
| Subset.RainRateSubset | Miscellaneous/script_06.py:39-42 | the rain-rate window has the clipped `latli:latui` by `lonli:lonui` shape; a cell is missing iff the raw value it comes from is zero, and otherwise holds that value; an empty axis is a ValueError |
| Subset.WholeSeconds | Miscellaneous/script_02.py:42 | `int(time[0])` truncates toward zero, and an empty time array is an IndexError |
| FileNames.Between | Miscellaneous/script_05.py:45 | when both markers are found, in order, the result is the text strictly between them |
| FileNames.BetweenRoundTrip | Miscellaneous/script_05.py:45 | text placed between markers that cannot occur earlier in the name is cut out again unchanged |
| FileNames.DateHm | Miscellaneous/script_05.py:47 | a 12-character stamp becomes `YYYY-MM-DD HH:MM UTC`, with the year, month, day, hour and minute in their places |
| FileNames.DateHmPrefix | Miscellaneous/script_05.py:47 | only the first 12 characters of the stamp affect the formatted date |
| FileNames.DateHmFields | Miscellaneous/script_05.py:47 | the formatted date puts the stamp's five fields around the separators |
| FileNames.BlendCreation | Miscellaneous/script_05.py:45 | in a blended-product name the text between `_c` and `.nc` is the creation time |
| FileNames.ShippedTpwCreation | Miscellaneous/script_05.py:20-45 | the TPW file name yields the creation time `202304190320065` |
| FileNames.ShippedTpwName | Miscellaneous/script_05.py:20-47 | the TPW file name is labelled `2023-04-19 03:20 UTC` |
| FileNames.ShippedRainRateCreation | Miscellaneous/script_06.py:19-47 | the rain-rate file name yields the creation time `202304191229598` |
| FileNames.ShippedRainRateName | Miscellaneous/script_06.py:19-49 | the rain-rate file name is labelled `2023-04-19 12:29 UTC` |
| FileNames.BlendDate | Miscellaneous/script_06.py:47-49 | a creation time of at least 12 characters gives a 20-character label |
| FileNames.DateYmd | Miscellaneous/script_09.py:34-37 | an 8-character date becomes `YYYY-MM-DD`, with dashes at positions 4 and 7 and the digits in order |
| FileNames.DateYmdPrefix | Miscellaneous/script_10.py:53 | only the first 8 characters of the stamp affect the date |
| FileNames.OmpsDate | Miscellaneous/script_09.py:33-37 | a date of 8 or more characters between `OMPS_` and `.grb` gives a `YYYY-MM-DD` label |
| FileNames.OmpsNameDate | Miscellaneous/script_09.py:33-37 | for an OMPS name, the label is the date written between `OMPS_` and `.grb` |
| FileNames.ShippedOmpsName | Miscellaneous/script_09.py:19-37 | the OMPS file name is labelled `2023-04-18` |
| FileNames.FireDate | Miscellaneous/script_10.py:52-53 | a date of 8 or more characters between `MVF_` and `.shp` gives a `YYYY-MM-DD` label |
| FileNames.FireNameDate | Miscellaneous/script_10.py:52-53 | for a fire-product name, the label is the date written between `MVF_` and `.shp` |
| FileNames.ShippedFireName | Miscellaneous/script_10.py:44-53 | the fire file name is labelled `2023-04-19` |
| FileNames.AlpwFields | Miscellaneous/script_01.py:69-70 | the year, Julian day, hour, minute and seconds are the consecutive fields of the 13-character stamp |
| FileNames.AlpwFormatted | Miscellaneous/script_01.py:73 | the label is the calendar date followed by ` HH:MM:SS UTC` taken from the stamp |
| FileNames.ShippedAlpwName | Miscellaneous/script_01.py:18-70 | the advected-TPW file name splits into year 2021, day 188, 12:00:00 |
| Decimal.ZFill | Animation/Scripts/script_animation.py:96 | `zfill` pads with zeros to the width after any sign, and leaves longer strings alone |
| Decimal.ParseInt | Animation/Scripts/script_animation.py:68 | `int()` succeeds iff the text is an optional `+`/`-` followed by at least one digit, and every other text raises ValueError; a digit string gives its value, with `-` negating it and `+` keeping it |
| Decimal.ParseIntToString | Animation/Scripts/script_animation.py:68 | `int(str(i)) == i` for every integer |
| Decimal.ParseZFilled | NWP/script_09.py:35 | `int(str(i).zfill(w)) == i`, so zero padding never changes the number |
| Decimal.NatToStringInjective | Animation/Scripts/script_animation.py:409 | different naturals have different decimal texts |
| Decimal.Padded | Animation/Scripts/script_animation.py:86 | a number below `10^w` padded to width `w` has exactly `w` digits and reads back as itself |
| PySeq.Bound | Miscellaneous/script_05.py:40 | a slice bound is clipped into `0..n`, and a negative bound counts from the end |
| PySeq.Slice | Animation/Scripts/script_animation.py:404 | a slice holds the clipped range of elements in order, and is empty when the bounds cross |
| PySeq.Find | Miscellaneous/script_05.py:45 | `find` gives the first index where the pattern occurs, and -1 iff it occurs nowhere |
| PySeq.FindAfter | Miscellaneous/script_05.py:45 | a pattern that cannot start earlier is found right after the prefix |
| PySeq.FindPrefix | Miscellaneous/script_05.py:45 | a match found wholly inside a prefix stays the first match whatever follows |
| PySeq.Reverse | NWP/script_14.py:125-126 | reversing puts element `k` at position `n-1-k` |
| PySeq.ReverseInvolution | NWP/script_14.py:125-126 | reversing twice gives the list back |
| PyNum.Trunc | NWP/script_14.py:100 | `int()` of a float truncates toward zero |
| PyNum.Mod1 | NWP/script_14.py:94-98 | the fractional part `% 1` lies in [0, 1) and differs from the value by a whole number, so it is `r - floor(r)` for every r; for non-negative values it is the value minus its integer part |

## Left out

- Drawing, colour bars, map projections (cartopy, pyproj), NetCDF, GRIB and HDF
  reading, `glob` and `copyfile`. These are I/O. The frame step returns
  the list of copies it would make (`Animation.CopyOp`) instead of making them.
- Floats are modelled as exact reals. Rounding is not modelled, including
  the rounding that can push the tracer's cell index to `nx-1` next to the
  last grid point. NaN comparisons inside `argmin` are not modelled either. The NaN that masking writes is a separate
  `Missing` sample.
- `Streamlines.Geometry`: the tracer's `atan2`/`cos`/`sin` heading, `sqrt`
  and `hypot` are parameters, because reals have no trigonometry here. The
  properties hold for any such functions.
- `os.path.exists` is the parameter `onDisk` of `Forecast.Processed`, because
  it reads the filesystem.
- `Streamlines.Trace`: requires `WellShaped`, i.e. `u` and `v` of shape
  `(len(y), len(x))`. On smaller arrays the source raises IndexError in the
  calm-point loop, and larger ones change the mask's shape; both are left
  out. The source's only call passes arrays of the grid's shape.
- `Streamlines.Trace`: requires regular, ascending axes and a stamp spacing of
  at least 1. With a zero spacing or a descending axis the source can seed
  the same free cell forever, so its seeding loop need not end.
- `Streamlines.TraceCoords`: requires of the extracted axes what
  `Streamlines.Trace` requires of its field.
- `Streamlines.Trace`: the marcher stamps each cell as it steps, while the
  model stamps the finished branch's cells afterwards. `OccupancyMask.StampAllSnoc`
  shows both give the same mask. The marcher never reads the mask, so the
  points are the same.
- `Streamlines.XAxis`: a ragged mesh is taken row by row. The shape checks
  numpy performs on ragged input are not modelled.
- `Streamlines.StepLength` states no contract of its own. It is `res` times
  `sqrt(dx·dy)` for whatever `sqrt` is given.
- `Timeline.TimeSteps`: requires a positive interval. With a zero interval
  the source's `while` loop never ends. With a negative interval `date_loop`
  falls without bound, and the loop ends only when `datetime` raises
  OverflowError below year 1, or when a download fails first.
- `Timeline.TimeSteps`: counts whole minutes from the start rather than
  calendar dates. `datetime`/`timedelta` calendar arithmetic, `strptime`
  and the epoch offset in `Miscellaneous/script_02.py:43` are not modelled.
- `FileNames.AlpwFormatted`: takes the calendar date as a parameter. The
  `%Y%j` to `%Y-%m-%d` conversion is calendar arithmetic.
- `Animation.FormatMoment`: requires a four-digit year. `strftime` prints
  other years without padding, and `datetime` rejects years outside 1–9999.
- `Animation.ParseMoment`: does not check the ranges `datetime` enforces
  (month 1–12 and so on). An out-of-range field raises ValueError in the
  source but is accepted by the model.
- `Decimal.ParseInt`: ignores `int()`'s acceptance of surrounding whitespace,
  of underscores between digits, and of non-ASCII digits. The model gives
  ValueError for such text; every text the scripts parse is a slice of a
  `YYYYMMDDHHMM` string or a zero-padded number, which has none of them.
- `Subset.WrapWindow`: states the contents of each row only when the grid
  has at least 2499 columns and `lonli <= 2499`. Otherwise only the row
  count is stated.
- `Animation.Classify`: legend titles and colour-table files are kept as
  names only.
- The animation script's downloads, band directories and HTML page writing
  are I/O and are not part of this model.
