# Pose import, pix4d export and tie-point bookkeeping, in Dafny

This project models the bookkeeping layer of an aerial-mapping pipeline that bootstraps
camera poses and a coarse textured terrain mesh from a survey flight:

- **Pose-file import** (`setAircraftPoses` in `scripts/lib/Pose.py`). Comment and header
  lines are skipped. Every other line is split on commas into a row
  `name, lat, lon, alt, a4, a5, a6[, flight_time]`, where the attitude columns follow the
  `ypr` or `rpy` order. Rows whose image file is missing are skipped, and so are rows whose
  roll or pitch exceeds `max_angle`. The remaining rows become the project's image list, in
  file order. A short or non-numeric row raises, and the images accepted before it are kept.
- **Pix4d export** (`make_pix4d`). The `*.jpg`/`*.JPG` names of a directory are sorted and
  tabulated one row each. Altitude and heading can be forced, or come from the image
  metadata. When no heading is available, or on request, headings are re-estimated from the
  ground track. As written this estimate calls `wgs84.geo_inverse` without importing `wgs84`,
  so it stops the export (see "Findings"). The model takes the binding of `wgs84` as a
  parameter: unbound, as written, or bound to a geodesy module, when each heading is
  replaced by the track heading normalised into [0, 360). The export refuses to overwrite an
  existing table.
- **Tie-point bookkeeping of the render script** (`scripts/6a-render-model.py`):
  - the elevation mean and variance of the matches the first image group observes;
  - the two-sigma selection of surface samples;
  - the `polyfit2d`/`polyval2d` term order;
  - every image's elevation list and its statistics;
  - outlier matches and their report order;
  - the pixel grid laid over each image of the group;
  - the choice of ground surface;
  - the conversion of intersection points into model coordinates, each image 0.01 above
    the one before.

Floats are modelled as `real`. A standard deviation is never formed: a `Spread` keeps the
mean and the population variance (the square of `np.std`). The comparisons `d <= 2*std`
and `e > 3*std*n` are made on squares, which is exact for non-negative sides.
`TiePoints.WithinTwoSigmaIff` and `TiePoints.FlaggedIff` show that the squared tests are
the source's tests, for any `std >= 0` whose square is the variance.

Stateful code is modelled imperatively:

- `PoseFile.Project` holds `image_list`.
- `TiePoints.Image` holds `z_list`, `z_avg`/`z_std` and `grid_list`.
- The loops of the source are methods proved against specification functions.

Functions outside the model are parameters:

- Python's `float()` is `toFloat: string -> Option<real>`, with `None` where it raises.
- `os.path.isfile` is membership in a set of names.
- `exif.get_pose` is a function from names to metadata.
- The geodesic inverse and the trigonometric averaging are the fields of `Pix4d.Geo`.
- Ray casting plus intersection with a plane or the terrain is `intersect` in
  `Footprint.RenderGroup`.

Python behaviour the model reproduces:

- `\s` is the whitespace of a Python 3 `re` pattern on `str`, the characters for which
  `str.isspace` holds (`Text.IsSpace`), non-ASCII spaces included.
- `str.split(',')` always yields at least one part.
- `fnmatch` is case-sensitive (POSIX).
- String order is code-point lexicographic.
- `sorted(..., reverse=True)` is stable, so outliers with equal error sums stay in match order.
- `zip` stops at the shorter input.
- `int(np.sqrt(n))` is the integer square root.
- Truthiness: `None` and `0.0` are false, so `--ground 0` and `force_altitude=0` count as
  not given.

Behaviour of the code worth knowing:

- A tie point within one standard deviation of every observing image's mean can still be
  flagged, because the code compares the error sum against the standard deviation of the
  last observing image only (`TiePoints.WiderEarlierObserverFlags`).
  `TiePoints.WithinOneSigmaNotFlagged` proves the guarantee that does hold: within one
  standard deviation of the last observer, measured from every observer's mean, a point is
  never flagged.
- An all-outlier fit set cannot arise: the sample nearest the mean always passes the
  two-sigma test (`TiePoints.FitPointsNonEmpty`).
- When the outlier loop meets a match without observations, the threshold uses whatever
  image the name `image` still holds. Before the first match this is the last image of the
  project, left behind by the statistics loop. With no images it is unbound, and the loop
  raises `NameError` (`TiePoints.NoImagesFails`).

## Model

| member | source | states |
|---|---|---|
| Text.MatchesAfterSpaceIff | scripts/lib/Pose.py:53-58 | `re.match('^\s*P', line)` holds exactly when the pattern occurs in the line after a prefix made only of whitespace |
| Text.Split | scripts/lib/Pose.py:59 | `line.split(',')` yields at least one field and no field contains a comma |
| Text.JoinSplit | scripts/lib/Pose.py:59 | joining the fields with commas gives back the line |
| Text.SplitJoin | scripts/lib/Pose.py:59 | fields without commas, joined and split again, are the same fields |
| Text.LexLeTotal | scripts/lib/Pose.py:141 | any two names are ordered one way or the other |
| Text.LexLeTransitive | scripts/lib/Pose.py:141 | the string order is transitive |
| Text.LexLeAntisymmetric | scripts/lib/Pose.py:141 | names ordered both ways are equal |
| Text.SortNames | scripts/lib/Pose.py:141 | `files.sort()` gives a sorted permutation of the names |
| Text.SortedNamesUnique | scripts/lib/Pose.py:141 | there is only one sorted arrangement of a multiset of names |
| PoseFile.Number | scripts/lib/Pose.py:61-73 | `float(field[k])` succeeds exactly when field k exists and parses; otherwise IndexError or ValueError for that field |
| PoseFile.Project.SetAircraftPoses | scripts/lib/Pose.py:44-92 | the image list is reset and the new list and the raised exception are what reading the lines in order gives |
| PoseFile.ReadPoseFile | scripts/lib/Pose.py:48-92 | no exception exactly when no line raises, and then the list is the accepted rows in file order; otherwise the fault is that of the first raising line, with the accepted rows before it |
| PoseFile.IngestCharacterised | scripts/lib/Pose.py:51-92 | the same characterisation, stated for any list of lines: the first raising line is named and nothing after it is read |
| PoseFile.CollectCharacterised | scripts/lib/Pose.py:51-92 | the loop state after any sequence of row outcomes: accepted rows in order, up to the first exception |
| PoseFile.FaultStops | scripts/lib/Pose.py:59-73 | once a row raises, later lines change nothing |
| PoseFile.CommentsAndHeadersConsumeNothing | scripts/lib/Pose.py:53-58 | a comment or header line is skipped and appending one to the file changes nothing |
| PoseFile.CommentsAndHeadersConsumeNothingAnywhere | scripts/lib/Pose.py:53-58 | a comment or header line inserted at any position leaves the image list as it was and moves a fault at or after that position down one line |
| PoseFile.CollectSkipInserted | scripts/lib/Pose.py:51-92 | a skipped line inserted anywhere in the loop's input leaves the images unchanged and shifts a later fault by one line |
| PoseFile.OutcomesAppend | scripts/lib/Pose.py:51-92 | each line's outcome depends on that line alone: the outcomes of two files read one after the other are the outcomes of each |
| PoseFile.FileNamedImagesAreSkipped | scripts/lib/Pose.py:56-58 | a data row whose image name starts with "File" is taken for a header and skipped |
| PoseFile.ColumnsOfReading | scripts/lib/Pose.py:59-75 | name, lat, lon, alt from fields 0-3; fields 4, 5, 6 are yaw, pitch, roll for `ypr` and roll, pitch, yaw for `rpy`; flight_time is field 7 on rows of 8 or more fields, else -1.0 |
| PoseFile.ReadFieldsSucceedsIff | scripts/lib/Pose.py:59-75 | a row reads without exception exactly when every converted field exists and is numeric (the attitude fields only for a known order, field 7 only on long rows) |
| PoseFile.AcceptedIff | scripts/lib/Pose.py:77-92 | a row that read cleanly is kept exactly when its file exists, abs(roll) <= max_angle and abs(pitch) <= max_angle; yaw is never checked; a kept row records the values read |
| PoseFile.DataRowScreened | scripts/lib/Pose.py:59-84 | a data line that reads cleanly is decided by the file and attitude checks |
| PoseFile.UnknownOrderFails | scripts/lib/Pose.py:64-81 | with an order other than `ypr`/`rpy` a row whose file exists raises for the unbound angles; a row whose file is missing is still skipped first |
| Pix4d.JpgNamesIff | scripts/lib/Pose.py:137-140 | the listing loop keeps exactly the names ending in `.jpg` or `.JPG`, each as often as listed |
| Pix4d.ListJpgs | scripts/lib/Pose.py:137-140 | the listing loop collects exactly `JpgNames` of the listing, in listing order |
| Pix4d.RowsAreSortedJpgs | scripts/lib/Pose.py:137-141 | the tabulated files are sorted and are exactly the jpg names of the directory, with their multiplicities |
| Pix4d.ListingOrderIrrelevant | scripts/lib/Pose.py:138-141 | the file order of the table does not depend on the order of the directory listing |
| Pix4d.AltitudePrecedence | scripts/lib/Pose.py:154-157 | a truthy forced altitude replaces the metadata altitude; None or 0 keeps the metadata altitude |
| Pix4d.HeadingPrecedence | scripts/lib/Pose.py:161-168 | a forced heading wins even when 0, else the metadata yaw, else 0; the metadata yaw counts as "have yaw" only when no heading is forced |
| Pix4d.CollectRows | scripts/lib/Pose.py:144-170 | the row loop gives one row per file with the precedence altitude and heading, and `images_have_yaw` is set exactly when a metadata yaw was used |
| Pix4d.ReestimateWhen | scripts/lib/Pose.py:144-172 | the ground-track estimate runs on request, and otherwise exactly when no truthy heading is forced and no image has a metadata yaw; a heading forced to 0 is re-estimated |
| Pix4d.NormaliseHeading | scripts/lib/Pose.py:204-206 | an atan2 heading in [-180, 180] lands in [0, 360), shifted by 360 or unchanged, and a heading already in [0, 360) is unchanged |
| Pix4d.ReestimatedInRange | scripts/lib/Pose.py:198-208 | every re-estimated heading lies in [0, 360) |
| Pix4d.GroundTrackAsWrittenFails | scripts/lib/Pose.py:185-202 | as written, ground-track estimation fails for every non-empty directory, with NameError for two or more images |
| Pix4d.ReestimateHeadings | scripts/lib/Pose.py:174-208 | the estimate loop with the geodesic bound replaces each heading by its normalised track heading, in [0, 360), or stops with ZeroDivisionError at an image with no neighbour distance |
| Pix4d.MakePix4d | scripts/lib/Pose.py:135-215 | the filter, sort, row and estimate loops produce the table `Pix4dTable` defines, or the reason the export stops, for `wgs84` unbound as written or bound |
| Pix4d.Pix4dTableRows | scripts/lib/Pose.py:135-243 | with `wgs84` bound (the corrected estimate): one row per sorted jpg name with metadata position, precedence altitude, zero roll and pitch, and the precedence heading or the estimated heading; failure only for an existing output or a weightless estimate |
| Pix4d.Pix4dTableAsWritten | scripts/lib/Pose.py:135-215 | as written (`wgs84` unbound): whenever the estimate runs on a non-empty directory the export stops before the output check, with NameError for two or more images; otherwise the precedence rows or the refusal to overwrite |
| Stats.SumBounds | scripts/6a-render-model.py:87-88 | a sum of n values between lo and hi lies between n*lo and n*hi |
| Stats.MeanBounds | scripts/6a-render-model.py:87 | `np.mean` lies between any lower and upper bound of the samples |
| Stats.VarianceNonNegative | scripts/6a-render-model.py:88 | the variance (`np.std` squared) is non-negative |
| Stats.ConstantSamples | scripts/6a-render-model.py:87-88 | equal samples have that value as mean and zero variance |
| Stats.FourSampleExample | scripts/6a-render-model.py:87-88 | samples 10, 10, 10, 40 have mean 17.5 and variance 168.75 |
| Itertools.ProductLength | scripts/6a-render-model.py:57-59 | `itertools.product` of m and n items has m*n pairs |
| Itertools.ProductAt | scripts/6a-render-model.py:59 | pair r*n + c of the product is (outer[r], inner[c]): the second index varies fastest |
| Poly2d.DesignRowAt | scripts/6a-render-model.py:56-61 | column i*(order+1) + j of a design row is x^i * y^j |
| Poly2d.DesignMatrix | scripts/6a-render-model.py:56-61 | the `G` matrix has one row per sample and (order+1)^2 columns, each entry the monomial of its column's (i, j) pair |
| Poly2d.ISqrt | scripts/6a-render-model.py:66 | `int(np.sqrt(len(m)))` is the largest r with r*r <= len(m) |
| Poly2d.ISqrtOfSquare | scripts/6a-render-model.py:66 | for (order+1)^2 coefficients the recovered order is the fit's order |
| Poly2d.PolyVal2d | scripts/6a-render-model.py:65-71 | the accumulation loop gives the dot product of the coefficients with the design row of the recovered order |
| Poly2d.PolyValueMatchesFitColumns | scripts/6a-render-model.py:56-71 | evaluating a fit's coefficients pairs coefficient k with the fit's column k |
| Poly2d.PolyValueIgnoresExtra | scripts/6a-render-model.py:66-70 | coefficients beyond the recovered square are dropped by `zip` |
| TiePoints.IsUsed | scripts/6a-render-model.py:80-84 | `used` is set exactly when some observation's image is in the group |
| TiePoints.GroupElevations | scripts/6a-render-model.py:78-86 | `z` is the elevations of the group-used matches, in match order |
| TiePoints.UsedPointsMembers | scripts/6a-render-model.py:79-86 | a point is selected exactly when some group image observes its match |
| TiePoints.SpreadOf | scripts/6a-render-model.py:87-88 | the statistics exist exactly when there is a sample |
| TiePoints.WithinTwoSigmaIff | scripts/6a-render-model.py:102-103 | the squared test is `abs(z - zavg) <= 2*zstd` for the standard deviation of the variance |
| TiePoints.SurfaceSamples | scripts/6a-render-model.py:92-106 | `xfit`, `yfit`, `zfit` have equal length and position k holds the coordinates of the k-th fit point |
| TiePoints.FitPointsAreFilteredUsedPoints | scripts/6a-render-model.py:95-106 | the fit points are the group-used points passing the two-sigma test, in match order; a point is in the fit exactly when it is group-used and within two standard deviations |
| TiePoints.FitPointsNonEmpty | scripts/6a-render-model.py:87-106 | whenever the group observes a match, at least one sample passes the two-sigma test |
| TiePoints.AppendElevation | scripts/6a-render-model.py:143-145 | each observation appends -z to its own image's list and to no other |
| TiePoints.AccumulateElevations | scripts/6a-render-model.py:138-145 | every image's list is reset and then holds -z once per observation of it, in match order, whatever the group; grid lists are emptied |
| TiePoints.ImageStatistics | scripts/6a-render-model.py:147-155 | each image gets the mean and variance of its own list, or None for an empty list, and nothing else changes |
| TiePoints.ZListCharacterised | scripts/6a-render-model.py:141-145 | an image's list has one entry per observation of it, and a value is in it exactly when it is -z of a match the image observes |
| TiePoints.ImageStatsPresentIff | scripts/6a-render-model.py:141-155 | an image has statistics exactly when it has at least one observation |
| TiePoints.ObserversHaveStats | scripts/6a-render-model.py:141-155 | every image that observes some match has statistics |
| TiePoints.MatchErrorSum | scripts/6a-render-model.py:162-166 | the inner loop gives the sum of abs(-z - z_avg) over the observers, or TypeError at the first observer without statistics |
| TiePoints.CheckMatch | scripts/6a-render-model.py:161-169 | one pass of the outlier loop body: the error sum, the image the name `image` is left bound to, and the match flagged or not, or the exception it raises |
| TiePoints.ErrorSumNonNegative | scripts/6a-render-model.py:162-166 | the error sum is non-negative |
| TiePoints.ErrorSumAtMost | scripts/6a-render-model.py:162-166 | when every observer's mean is within a bound of -z, the error sum exists and is at most n times the bound |
| TiePoints.FlaggedIff | scripts/6a-render-model.py:167 | the squared test is `error_sum > 3 * (z_std * n)` for a non-negative error sum |
| TiePoints.FindOutliers | scripts/6a-render-model.py:159-169 | the outlier loop gives exactly the outlier list or the exception of the specification `OutliersOf` |
| TiePoints.ScanStep | scripts/6a-render-model.py:160-169 | an exception in one pass ends the whole loop with that exception; a completed pass appends its outlier, if any, to the list |
| TiePoints.OutliersAreFlagged | scripts/6a-render-model.py:159-169 | every listed outlier is a flagged match with its own error sum, in increasing match order |
| TiePoints.FlaggedAreListed | scripts/6a-render-model.py:159-169 | every flagged match is listed |
| TiePoints.OutliersCharacterised | scripts/6a-render-model.py:159-169 | a match is listed exactly when it is flagged, with its error sum, in increasing match order; a match without observations is never flagged |
| TiePoints.ScanSucceeds | scripts/6a-render-model.py:160-167 | the loop raises nothing when every observer has statistics and either the carried image has statistics or every match has an observation |
| TiePoints.ProjectScanSucceeds | scripts/6a-render-model.py:147-167 | after the statistics loop, the outlier loop completes when every match has an observation or the last image has one |
| TiePoints.NoImagesFails | scripts/6a-render-model.py:147-167 | with no images and at least one match the loop raises NameError |
| TiePoints.WithinOneSigmaNotFlagged | scripts/6a-render-model.py:162-167 | a match whose -z is within one last-observer standard deviation of every observer's mean is not flagged |
| TiePoints.WiderEarlierObserverFlags | scripts/6a-render-model.py:162-167 | a match within one standard deviation of each observer's own mean can still be flagged |
| TiePoints.ElevationOutliers | scripts/6a-render-model.py:138-171 | lists, statistics, then the outliers in report order or the exception the loop raises |
| TiePoints.SortOutliers | scripts/6a-render-model.py:171 | the report is a permutation of the outliers, larger error sums first and equal sums in match order |
| TiePoints.ReportOrderUnique | scripts/6a-render-model.py:171 | the report order is uniquely determined by that rule |
| TiePoints.ReportDescending | scripts/6a-render-model.py:171 | error sums never increase along the report |
| Footprint.LinspaceShape | scripts/6a-render-model.py:192-193 | `np.linspace(0, stop, n)` starts at 0, ends at stop and is evenly spaced |
| Footprint.GridAt | scripts/6a-render-model.py:196-198 | grid point r*(steps+1) + c is [u_c, v_r]: v is the outer loop |
| Footprint.ImageGridCorners | scripts/6a-render-model.py:191-198 | the grid has (ac3d_steps+1)^2 points, the first [0, 0] and the last [width, height] |
| Footprint.BuildGrid | scripts/6a-render-model.py:191-198 | the nested loops build exactly that grid |
| Footprint.RenderImage | scripts/6a-render-model.py:191-231 | one image's grid list becomes its intersected grid converted at the current depth; its elevation list and statistics are unchanged |
| Footprint.SurfaceChoice | scripts/6a-render-model.py:215-224 | a truthy `--ground` gives its plane; otherwise `--srtm` gives the terrain; otherwise the plane at the image's `z_avg`; `--ground 0` acts as absent |
| Footprint.ForcedGroundAtMean | scripts/6a-render-model.py:215-224 | a forced ground equal to an image's mean elevation gives the same plane as the default |
| Footprint.ToModel | scripts/6a-render-model.py:231 | `[p[1], p[0], -(p[2]+depth)]` is undone by `FromModel` at the same depth |
| Footprint.ModelRoundTrip | scripts/6a-render-model.py:231 | converting back and forth gives the model point back |
| Footprint.LaterImagesAbove | scripts/6a-render-model.py:176-234 | the same point drawn for a later image of the group lies higher by 0.01 per position, with x and y unchanged |
| Footprint.ConvertedInvertible | scripts/6a-render-model.py:228-233 | each stored grid point gives back its intersection point |
| Footprint.ConvertPoints | scripts/6a-render-model.py:228-233 | the conversion loop stores one converted point per intersection point, in order |
| Footprint.LastPosition | scripts/6a-render-model.py:183-234 | the position found holds the image and no later position does; no position means the image is not in the group |
| Footprint.GroupGridStep | scripts/6a-render-model.py:183-234 | a further group position overwrites the grid list of the image it names, at that position's depth, and of no other image |
| Footprint.RenderGroup | scripts/6a-render-model.py:176-234 | each group image's grid list is its intersected grid converted at depth -0.01 times its last position; other images and all statistics are unchanged |
| Footprint.DistinctGroupDepths | scripts/6a-render-model.py:183-234 | in a group without repeats, the image at position k is drawn at depth -0.01*k |

## Left out

- `compute_camera_poses` (quaternions, Euler angles, `navpy.lla2ned`, configuration tree): float rotation algebra over libraries whose code is not part of this model.
- `np.linalg.lstsq` in `polyfit2d`: the least-squares solve is float linear algebra; only the design matrix `G` and its column order are modelled.
- The camera matrix, its inverse, `projectVectors`, `intersectVectorsWithGroundPlane` and `SRTM.NEDGround.interpolate_vectors`: their code is not part of this model; they are the parameter `intersect`.
- The geodesic inverse and the cos/sin/atan2 averaging of the heading estimate: they are the fields of `Pix4d.Geo`, constrained only to return an atan2 angle in [-180, 180] degrees.
- File and library I/O: `fileinput`, `os.listdir`, EXIF reading, pickle, `Groups.load`, argparse, matplotlib, `AC3D.generate` and every print and log line. The lines, listings, metadata and matches are parameters instead.
- The pix4d CSV writing: the column headers and the `%.10f`/`%.2f` formatting are not modelled; the model ends with the rows.
- `os.path.splitext` and the `image.Image` record built for an accepted row: the model records the parsed pose instead.
- `ground_sum` and the debug loop that re-evaluates the fit: their values are only printed.
- `Footprint.Depth`: gives exactly -0.01*k, whereas repeated float subtraction of 0.01 accumulates rounding.
- `PoseFile.Screen`: compares reals, so a nan roll or pitch, which passes `abs(x) > max_angle` as false and is kept, has no counterpart.
- `Pix4d.NormaliseHeading`: gives h + 360 exactly, whereas in floats a tiny negative heading plus 360.0 rounds to 360.0, outside [0, 360).
- `PoseFile.Number`: Python's `float()` is a parameter, so the accepted number syntax (surrounding whitespace and the newline the unassigned `line.strip()` leaves in the last field) is whatever that parameter accepts.
- `TiePoints.SpreadOf`: numpy's nan for an empty list is modelled as None; the fit on an empty sample set is not modelled.
- `TiePoints.Image`: `z_avg` and `z_std` are one optional `Spread` field, since the source always sets both or neither.
- `TiePoints.AccumulateElevations`: requires every observation's image index to be a valid image. An out-of-range index, which would raise IndexError, is not modelled.
- `Footprint.RenderGroup`: requires the group's indices to be valid images. The direct versus refined pose choice is folded into `intersect`.

## Findings

| source | as written | input that shows it | evidently intended | confidence | as-written member | corrected member |
|---|---|---|---|---|---|---|
| scripts/lib/Pose.py:185-193 | ground-track estimation calls `wgs84.geo_inverse`, but `wgs84` is never imported in the module | any directory with two or more jpg images and no metadata heading (or `yaw_from_groundtrack=True`): NameError on the first image; with exactly one image both distances are 0 and the weighted mean divides by zero | the geodesic inverse of an imported `wgs84` module, replacing each heading by the distance-weighted track heading in [0, 360) | not executed | Pix4d.GroundTrackAsWritten | Pix4d.ReestimateHeadings |
