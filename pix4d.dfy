/**
 * Building a pix4d pose table from a directory of geotagged images
 * (scripts/lib/Pose.py, make_pix4d).
 *
 * The `.jpg`/`.JPG` names of the directory are sorted and each becomes one row
 * (name, lat, lon, altitude, roll 0, pitch 0, heading). Altitude and heading may be
 * forced; otherwise they come from the image metadata. When no heading is known, or
 * when asked to, headings are re-estimated from the ground track. As written the
 * estimate names a module `wgs84` that is never imported, so it stops the run; with
 * `wgs84` bound it replaces each heading by the track heading normalised into [0, 360).
 * The run refuses to overwrite an existing output table.
 */
module Pix4d {
  import opened Base
  import opened Text

  /** What exif.get_pose returns for one image (yaw is None when the metadata has none). */
  datatype Exif = Exif(lon: real, lat: real, alt: real, unixTime: real, yaw: Option<real>)

  /** One output row, in the column order of the table: File Name, Lat, Lon, Alt, Roll, Pitch, Yaw. */
  datatype Row = Row(file: string, lat: real, lon: real, alt: real, roll: real, pitch: real, yaw: real)

  /** The make_pix4d keyword arguments; None stands for Python's None. */
  datatype Options = Options(forceAltitude: Option<real>, forceHeading: Option<real>, yawFromGroundtrack: bool)

  /**
   * The ground-track geometry the heading estimate relies on:
   * `inverse(lat1, lon1, lat2, lon2)` is the course and distance of wgs84.geo_inverse, and
   * `average(prevHdg, prevDist, nextHdg, nextDist)` is the atan2 of the distance-weighted
   * mean of the two unit heading vectors, in degrees.
   */
  datatype Geo = Geo(
    inverse: (real, real, real, real) -> (real, real),
    average: (real, real, real, real) -> real)

  /** The range of atan2 in degrees, which the averaged heading lies in. */
  ghost predicate AverageInRange(geo: Geo) {
    forall a: real, b: real, c: real, d: real :: -180.0 <= geo.average(a, b, c, d) <= 180.0
  }

  /** The ways make_pix4d stops: the output table exists (quit()), a division by zero, an unbound name. */
  datatype Pix4dError = OutputExists | ZeroDivision | NameError

  /** fnmatch(name, "*.jpg") or fnmatch(name, "*.JPG") with POSIX (case-sensitive) matching. */
  predicate IsJpg(name: string) {
    EndsWith(name, ".jpg") || EndsWith(name, ".JPG")
  }

  /** The names the listing loop keeps, in listing order. */
  function JpgNames(listing: seq<string>): seq<string>
  {
    if listing == [] then []
    else JpgNames(listing[..|listing| - 1]) + (if IsJpg(listing[|listing| - 1]) then [listing[|listing| - 1]] else [])
  }

  lemma {:induction false} JpgNamesIff(listing: seq<string>)
    ensures forall x :: x in JpgNames(listing) <==> x in listing && IsJpg(x)
    ensures forall x :: x in listing && IsJpg(x) ==> multiset(JpgNames(listing))[x] == multiset(listing)[x]
  {
    if listing != [] {
      var init := listing[..|listing| - 1];
      JpgNamesIff(init);
      assert listing == init + [listing[|listing| - 1]];
    }
  }

  function Altitude(e: Exif, opts: Options): real {
    if !Truthy(opts.forceAltitude) then e.alt else opts.forceAltitude.value
  }

  function Heading(e: Exif, opts: Options): real {
    if opts.forceHeading.Some? then opts.forceHeading.value
    else if e.yaw.Some? then e.yaw.value
    else 0.0
  }

  /** The row appended for one file before any ground-track estimate. */
  function RowFor(file: string, e: Exif, opts: Options): Row {
    Row(file, e.lat, e.lon, Altitude(e, opts), 0.0, 0.0, Heading(e, opts))
  }

  /** `images_have_yaw` after the given files: the metadata heading was used for one of them. */
  predicate HaveYaw(files: seq<string>, exif: string -> Exif, opts: Options) {
    opts.forceHeading.None? && exists k :: 0 <= k < |files| && exif(files[k]).yaw.Some?
  }

  /** `not force_heading and not images_have_yaw or yaw_from_groundtrack`. */
  predicate Reestimate(opts: Options, haveYaw: bool) {
    (!Truthy(opts.forceHeading) && !haveYaw) || opts.yawFromGroundtrack
  }

  /** `avg_hdg += 360.0` when negative. */
  function NormaliseHeading(h: real): (r: real)
    ensures -180.0 <= h <= 180.0 ==> 0.0 <= r < 360.0
    ensures r == h || r == h + 360.0
    ensures 0.0 <= h < 360.0 ==> r == h
  {
    if h < 0.0 then h + 360.0 else h
  }

  /** The course and distance to the previous and the next image, zero where there is none. */
  function Neighbours(images: seq<Row>, i: nat, geo: Geo): (real, real, real, real)
    requires i < |images|
  {
    var (prevHdg, prevDist) := if i > 0 then geo.inverse(images[i - 1].lat, images[i - 1].lon, images[i].lat, images[i].lon) else (0.0, 0.0);
    var (nextHdg, nextDist) := if i < |images| - 1 then geo.inverse(images[i].lat, images[i].lon, images[i + 1].lat, images[i + 1].lon) else (0.0, 0.0);
    (prevHdg, prevDist, nextHdg, nextDist)
  }

  /** The heading estimated for image i: a division by zero when both neighbour distances sum to 0. */
  function TrackHeading(images: seq<Row>, i: nat, geo: Geo): Result<real, Pix4dError>
    requires i < |images|
  {
    var (ph, pd, nh, nd) := Neighbours(images, i, geo);
    if pd + nd == 0.0 then Err(ZeroDivision)
    else Ok(NormaliseHeading(geo.average(ph, pd, nh, nd)))
  }

  /**
   * The heading loop as written: `wgs84` is not bound in the module, so the first
   * iteration raises NameError as soon as there is a neighbour to measure, and with a
   * single image the weighted mean divides by zero.
   */
  function GroundTrackAsWritten(images: seq<Row>): Result<seq<Row>, Pix4dError>
  {
    if images == [] then Ok(images)
    else
      var i := 0;
      var hasPrev, hasNext := i > 0, i < |images| - 1;
      if hasPrev || hasNext then Err(NameError)
      else Err(ZeroDivision)
  }

  /** As written, ground-track estimation fails on every non-empty directory. */
  lemma GroundTrackAsWrittenFails(images: seq<Row>)
    requires images != []
    ensures GroundTrackAsWritten(images).Err?
    ensures |images| >= 2 ==> GroundTrackAsWritten(images) == Err(NameError)
  {
  }

  /** The heading estimate of every image, or the division by zero of the first image that has no weight. */
  function Reestimated(images: seq<Row>, geo: Geo): Result<seq<Row>, Pix4dError>
  {
    if forall i :: 0 <= i < |images| ==> TrackHeading(images, i, geo).Ok? then
      Ok(seq(|images|, i requires 0 <= i < |images| => images[i].(yaw := TrackHeading(images, i, geo).value)))
    else Err(ZeroDivision)
  }

  /** The overwrite loop with `wgs84` bound: every heading is replaced by the normalised estimate. */
  method ReestimateHeadings(images: seq<Row>, geo: Geo) returns (r: Result<seq<Row>, Pix4dError>)
    requires AverageInRange(geo)
    ensures r == Reestimated(images, geo)
    ensures r.Ok? ==> forall i :: 0 <= i < |images| ==> 0.0 <= r.value[i].yaw < 360.0
  {
    var rows := images;
    var i := 0;
    while i < |images|
      invariant 0 <= i <= |images|
      invariant HeadingsUpTo(rows, images, geo, i)
    {
      // the loop reads only the positions of the neighbours, which it never changes
      NeighboursByPosition(rows, images, i, geo);
      var (ph, pd, nh, nd) := Neighbours(rows, i, geo);
      if pd + nd == 0.0 {
        assert TrackHeading(images, i, geo).Err?;
        return Err(ZeroDivision);
      }
      var hdg := NormaliseHeading(geo.average(ph, pd, nh, nd));
      HeadingsStep(rows, images, geo, i, hdg);
      rows := rows[i := rows[i].(yaw := hdg)];
      i := i + 1;
    }
    HeadingsDone(rows, images, geo);
    r := Ok(rows);
    ReestimatedInRange(images, geo);
  }

  /** The state of the estimate loop after the first i images. */
  predicate HeadingsUpTo(rows: seq<Row>, images: seq<Row>, geo: Geo, i: nat) {
    && i <= |images| && SamePositions(rows, images)
    && (forall j :: 0 <= j < i ==>
          TrackHeading(images, j, geo).Ok? && rows[j] == images[j].(yaw := TrackHeading(images, j, geo).value))
    && (forall j :: i <= j < |images| ==> rows[j] == images[j])
  }

  lemma HeadingsStep(rows: seq<Row>, images: seq<Row>, geo: Geo, i: nat, hdg: real)
    requires HeadingsUpTo(rows, images, geo, i) && i < |images|
    requires TrackHeading(images, i, geo) == Ok(hdg)
    ensures HeadingsUpTo(rows[i := rows[i].(yaw := hdg)], images, geo, i + 1)
  {
  }

  lemma HeadingsDone(rows: seq<Row>, images: seq<Row>, geo: Geo)
    requires HeadingsUpTo(rows, images, geo, |images|)
    ensures Reestimated(images, geo) == Ok(rows)
  {
    assert rows == seq(|images|, j requires 0 <= j < |images| => images[j].(yaw := TrackHeading(images, j, geo).value));
  }

  /** Every re-estimated heading lies in [0, 360). */
  lemma ReestimatedInRange(images: seq<Row>, geo: Geo)
    requires AverageInRange(geo)
    ensures Reestimated(images, geo).Ok? ==> forall i :: 0 <= i < |images| ==> 0.0 <= Reestimated(images, geo).value[i].yaw < 360.0
  {
    forall j | 0 <= j < |images| && TrackHeading(images, j, geo).Ok?
      ensures 0.0 <= TrackHeading(images, j, geo).value < 360.0
    {
      var (ph, pd, nh, nd) := Neighbours(images, j, geo);
      assert -180.0 <= geo.average(ph, pd, nh, nd) <= 180.0;
    }
  }

  /** Two tables whose rows lie at the same positions, whatever their headings. */
  predicate SamePositions(rows: seq<Row>, images: seq<Row>) {
    |rows| == |images| &&
    forall j :: 0 <= j < |rows| ==> rows[j].lat == images[j].lat && rows[j].lon == images[j].lon
  }

  /** The neighbours of an image depend only on the positions. */
  lemma NeighboursByPosition(rows: seq<Row>, images: seq<Row>, i: nat, geo: Geo)
    requires SamePositions(rows, images) && i < |images|
    ensures Neighbours(rows, i, geo) == Neighbours(images, i, geo)
  {
  }

  /** The files make_pix4d tabulates: the jpg names of the listing, sorted. */
  function SortedJpgs(listing: seq<string>): seq<string> {
    SortNames(JpgNames(listing))
  }

  /** The rows before any ground-track estimate. */
  function BaseRows(files: seq<string>, exif: string -> Exif, opts: Options): (rows: seq<Row>)
    ensures |rows| == |files|
  {
    seq(|files|, k requires 0 <= k < |files| => RowFor(files[k], exif(files[k]), opts))
  }

  /** What the name `wgs84` refers to in the heading estimate: unbound, as the module is written, or a geodesy module. */
  datatype Wgs84 = Unbound | Bound(geo: Geo)

  /** The heading estimate under the given binding of `wgs84`. */
  function GroundTrack(images: seq<Row>, wgs84: Wgs84): Result<seq<Row>, Pix4dError>
  {
    match wgs84
    case Unbound => GroundTrackAsWritten(images)
    case Bound(geo) => Reestimated(images, geo)
  }

  /** The table make_pix4d writes, or the reason it stops. */
  function Pix4dTable(listing: seq<string>, exif: string -> Exif, opts: Options, wgs84: Wgs84, outputExists: bool)
    : Result<seq<Row>, Pix4dError>
  {
    var files := SortedJpgs(listing);
    var base := BaseRows(files, exif, opts);
    var rows :- if Reestimate(opts, HaveYaw(files, exif, opts)) then GroundTrack(base, wgs84) else Ok(base);
    if outputExists then Err(OutputExists) else Ok(rows)
  }

  /** The directory scan of make_pix4d: the listing's jpg names, in listing order. */
  method ListJpgs(listing: seq<string>) returns (files: seq<string>)
    ensures files == JpgNames(listing)
  {
    files := [];
    var n := 0;
    while n < |listing|
      invariant 0 <= n <= |listing|
      invariant files == JpgNames(listing[..n])
    {
      assert listing[..n + 1][..n] == listing[..n];
      if IsJpg(listing[n]) {
        files := files + [listing[n]];
      }
      n := n + 1;
    }
    assert listing[..n] == listing;
  }

  /** The row loop of make_pix4d: one row per file, noting whether a metadata heading was used. */
  method CollectRows(files: seq<string>, exif: string -> Exif, opts: Options)
    returns (images: seq<Row>, haveYaw: bool)
    ensures images == BaseRows(files, exif, opts)
    ensures haveYaw == HaveYaw(files, exif, opts)
  {
    haveYaw := false;
    images := [];
    var k := 0;
    while k < |files|
      invariant 0 <= k <= |files| && |images| == k
      invariant forall j :: 0 <= j < k ==> images[j] == RowFor(files[j], exif(files[j]), opts)
      invariant haveYaw == HaveYaw(files[..k], exif, opts)
    {
      var e := exif(files[k]);
      var alt := if !Truthy(opts.forceAltitude) then e.alt else opts.forceAltitude.value;
      var heading;
      if opts.forceHeading.Some? {
        heading := opts.forceHeading.value;
      } else if e.yaw.Some? {
        haveYaw := true;
        heading := e.yaw.value;
      } else {
        heading := 0.0;
      }
      assert files[..k + 1][..k] == files[..k];
      assert files[..k + 1][k] == files[k];
      images := images + [Row(files[k], e.lat, e.lon, alt, 0.0, 0.0, heading)];
      k := k + 1;
    }
    assert files[..k] == files;
  }

  /** make_pix4d, up to the formatting of the table it writes. */
  method MakePix4d(listing: seq<string>, exif: string -> Exif, opts: Options, wgs84: Wgs84, outputExists: bool)
    returns (r: Result<seq<Row>, Pix4dError>)
    requires wgs84.Bound? ==> AverageInRange(wgs84.geo)
    ensures r == Pix4dTable(listing, exif, opts, wgs84, outputExists)
  {
    var files := ListJpgs(listing);
    files := SortNames(files);
    var images, haveYaw := CollectRows(files, exif, opts);
    if Reestimate(opts, haveYaw) {
      var est;
      if wgs84.Bound? {
        est := ReestimateHeadings(images, wgs84.geo);
      } else {
        est := GroundTrackAsWritten(images);
      }
      if est.Err? {
        return Err(est.error);
      }
      images := est.value;
    }
    if outputExists {
      return Err(OutputExists);
    }
    r := Ok(images);
  }

  /**
   * The table: one row per sorted jpg name, position and altitude from the metadata (or the
   * forced altitude), zero roll and pitch, and either the precedence heading or, when the
   * estimate runs, the ground-track heading in [0, 360). It fails only when the output
   * exists or an estimate has no weight. This is the table with `wgs84` bound to a geodesy module.
   */
  lemma {:induction false} Pix4dTableRows(listing: seq<string>, exif: string -> Exif, opts: Options, geo: Geo, outputExists: bool)
    requires AverageInRange(geo)
    ensures var files := SortedJpgs(listing);
      var again := Reestimate(opts, HaveYaw(files, exif, opts));
      var r := Pix4dTable(listing, exif, opts, Bound(geo), outputExists);
      && (r.Err? ==> r.error == OutputExists || (again && r.error == ZeroDivision))
      && (!again ==> (r.Ok? <==> !outputExists))
      && (r.Ok? ==> |r.value| == |files|)
      && (r.Ok? ==> forall k :: 0 <= k < |files| ==>
            && r.value[k].file == files[k]
            && r.value[k].lat == exif(files[k]).lat && r.value[k].lon == exif(files[k]).lon
            && r.value[k].alt == Altitude(exif(files[k]), opts)
            && r.value[k].roll == 0.0 && r.value[k].pitch == 0.0)
      && (r.Ok? && !again ==> forall k :: 0 <= k < |files| ==> r.value[k].yaw == Heading(exif(files[k]), opts))
      && (r.Ok? && again ==> forall k :: 0 <= k < |files| ==>
            && TrackHeading(BaseRows(files, exif, opts), k, geo).Ok?
            && r.value[k].yaw == TrackHeading(BaseRows(files, exif, opts), k, geo).value
            && 0.0 <= r.value[k].yaw < 360.0)
  {
  }

  /**
   * The table as the module is written, `wgs84` unbound: whenever the estimate runs on a
   * non-empty directory the export stops, with NameError for two or more images, before the
   * output check; otherwise the rows are the precedence rows.
   */
  lemma Pix4dTableAsWritten(listing: seq<string>, exif: string -> Exif, opts: Options, outputExists: bool)
    ensures var files := SortedJpgs(listing);
      var again := Reestimate(opts, HaveYaw(files, exif, opts));
      var r := Pix4dTable(listing, exif, opts, Unbound, outputExists);
      && (again && files != [] ==> r.Err? && r.error != OutputExists)
      && (again && |files| >= 2 ==> r == Err(NameError))
      && (!again || files == [] ==> r == if outputExists then Err(OutputExists) else Ok(BaseRows(files, exif, opts)))
  {
    var files := SortedJpgs(listing);
    var base := BaseRows(files, exif, opts);
    if files != [] {
      GroundTrackAsWrittenFails(base);
    }
  }

  /**
   * Heading precedence: a forced heading wins even when it is 0; otherwise the metadata
   * heading; otherwise 0. The metadata heading counts as "have yaw" only when no heading is forced.
   */
  lemma HeadingPrecedence(files: seq<string>, exif: string -> Exif, opts: Options, k: nat)
    requires k < |files|
    ensures opts.forceHeading.Some? ==> Heading(exif(files[k]), opts) == opts.forceHeading.value
    ensures opts.forceHeading.None? && exif(files[k]).yaw.Some? ==>
      Heading(exif(files[k]), opts) == exif(files[k]).yaw.value && HaveYaw(files, exif, opts)
    ensures opts.forceHeading.None? && exif(files[k]).yaw.None? ==> Heading(exif(files[k]), opts) == 0.0
    ensures opts.forceHeading.Some? ==> !HaveYaw(files, exif, opts)
  {
  }

  /** Altitude precedence: a forced altitude of 0 is not forced. */
  lemma AltitudePrecedence(e: Exif, opts: Options)
    ensures opts.forceAltitude.Some? && opts.forceAltitude.value != 0.0 ==> Altitude(e, opts) == opts.forceAltitude.value
    ensures opts.forceAltitude == None || opts.forceAltitude == Some(0.0) ==> Altitude(e, opts) == e.alt
  {
  }

  /**
   * When the ground-track estimate runs: always on request; otherwise exactly when no
   * truthy heading was forced and no image supplied a metadata heading. A heading forced
   * to 0 is therefore replaced by the estimate whenever the metadata has none.
   */
  lemma ReestimateWhen(files: seq<string>, exif: string -> Exif, opts: Options)
    ensures opts.yawFromGroundtrack ==> Reestimate(opts, HaveYaw(files, exif, opts))
    ensures Truthy(opts.forceHeading) ==> (Reestimate(opts, HaveYaw(files, exif, opts)) <==> opts.yawFromGroundtrack)
    ensures opts.forceHeading.None? ==>
      (Reestimate(opts, HaveYaw(files, exif, opts)) <==>
        opts.yawFromGroundtrack || forall k :: 0 <= k < |files| ==> exif(files[k]).yaw.None?)
    ensures opts.forceHeading == Some(0.0) ==> Reestimate(opts, HaveYaw(files, exif, opts))
  {
  }

  /** The table covers exactly the jpg names of the listing, each as often as listed, in sorted order. */
  lemma RowsAreSortedJpgs(listing: seq<string>)
    ensures var files := SortNames(JpgNames(listing));
      && SortedNames(files)
      && (forall x :: x in files <==> x in listing && IsJpg(x))
      && (forall x :: x in listing && IsJpg(x) ==> multiset(files)[x] == multiset(listing)[x])
  {
    JpgNamesIff(listing);
    var files := SortNames(JpgNames(listing));
    assert forall x :: x in files <==> x in multiset(files);
    assert forall x :: x in JpgNames(listing) <==> x in multiset(JpgNames(listing));
  }

  /** The table's file order does not depend on the order the directory lists its entries in. */
  lemma ListingOrderIrrelevant(listing: seq<string>, listing': seq<string>)
    requires multiset(listing) == multiset(listing')
    ensures SortedJpgs(listing) == SortedJpgs(listing')
  {
    JpgNamesIff(listing);
    JpgNamesIff(listing');
    var a, b := JpgNames(listing), JpgNames(listing');
    forall x ensures multiset(a)[x] == multiset(b)[x] {
      assert x in listing <==> x in multiset(listing);
      assert x in listing' <==> x in multiset(listing');
      assert x in a <==> x in multiset(a);
      assert x in b <==> x in multiset(b);
    }
    assert multiset(a) == multiset(b);
    SortedNamesUnique(SortNames(a), SortNames(b));
  }
}
