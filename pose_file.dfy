/**
 * Reading an aircraft pose file (scripts/lib/Pose.py, setAircraftPoses).
 *
 * Each line of the file is `name, lat, lon, alt, a4, a5, a6[, flight_time]`, where
 * a4..a6 are yaw/pitch/roll or roll/pitch/yaw depending on the `order` argument.
 * Comment and header lines are skipped, rows whose image file is missing or whose
 * attitude is extreme are skipped, and every other row becomes an image of the
 * project, in file order. A short or non-numeric row aborts the run with the
 * exception Python raises, leaving the rows accepted before it in the list.
 */
module PoseFile {
  import opened Base
  import opened Text

  /** The `order` argument; any string other than 'ypr' and 'rpy' leaves the angles unbound. */
  datatype Order = Ypr | Rpy | OtherOrder

  /** Everything the reader depends on besides the lines themselves. */
  datatype Reader = Reader(
    order: Order,
    maxAngle: real,
    existing: set<string>,                 // names for which os.path.isfile holds
    toFloat: string -> Option<real>)       // Python's float(); None where it raises ValueError

  /** What set_aircraft_pose records for an accepted row. */
  datatype AircraftPose = AircraftPose(
    name: string, lat: real, lon: real, alt: real,
    yaw: real, pitch: real, roll: real, flightTime: real)

  /** The exceptions a row can raise: IndexError, ValueError, and the unbound-angle NameError. */
  datatype Fault = MissingField(index: nat) | NotANumber(index: nat) | UnboundAngles

  datatype Skip = CommentLine | HeaderLine | NoImageFile | ExtremeAttitude

  datatype RowOutcome = Skipped(why: Skip) | Accepted(pose: AircraftPose) | Failed(fault: Fault)

  datatype Angles = Angles(yaw: real, pitch: real, roll: real)

  /** The values read from a row before the file and attitude checks. */
  datatype Reading = Reading(
    name: string, lat: real, lon: real, alt: real,
    angles: Option<Angles>, flightTime: real)

  /** A fault together with the (zero-based) line it came from. */
  datatype LineFault = LineFault(line: nat, fault: Fault)

  /** The list of accepted images and the exception that ended the read, if any. */
  datatype Ingested = Ingested(poses: seq<AircraftPose>, fault: Option<LineFault>)

  predicate IsComment(line: string) { MatchesAfterSpace(line, "#") }

  predicate IsHeader(line: string) { MatchesAfterSpace(line, "File") }

  /** `float(field[k])`. */
  function Number(fields: seq<string>, k: nat, toFloat: string -> Option<real>): (r: Result<real, Fault>)
    ensures r.Ok? <==> k < |fields| && toFloat(fields[k]).Some?
    ensures r.Ok? ==> r.value == toFloat(fields[k]).value
    ensures k >= |fields| ==> r == Err(MissingField(k))
    ensures k < |fields| && toFloat(fields[k]).None? ==> r == Err(NotANumber(k))
  {
    if k >= |fields| then Err(MissingField(k))
    else match toFloat(fields[k])
      case None => Err(NotANumber(k))
      case Some(v) => Ok(v)
  }

  /** The attitude columns, read in the order the source reads them (field 4, 5, then 6). */
  function ReadAngles(fields: seq<string>, order: Order, toFloat: string -> Option<real>): Result<Option<Angles>, Fault>
  {
    match order
    case Ypr =>
      var yaw :- Number(fields, 4, toFloat);
      var pitch :- Number(fields, 5, toFloat);
      var roll :- Number(fields, 6, toFloat);
      Ok(Some(Angles(yaw, pitch, roll)))
    case Rpy =>
      var roll :- Number(fields, 4, toFloat);
      var pitch :- Number(fields, 5, toFloat);
      var yaw :- Number(fields, 6, toFloat);
      Ok(Some(Angles(yaw, pitch, roll)))
    case OtherOrder => Ok(None)
  }

  function ReadFields(fields: seq<string>, order: Order, toFloat: string -> Option<real>): Result<Reading, Fault>
    requires |fields| >= 1
  {
    var lat :- Number(fields, 1, toFloat);
    var lon :- Number(fields, 2, toFloat);
    var alt :- Number(fields, 3, toFloat);
    var angles :- ReadAngles(fields, order, toFloat);
    var flightTime :- if |fields| >= 8 then Number(fields, 7, toFloat) else Ok(-1.0);
    Ok(Reading(fields[0], lat, lon, alt, angles, flightTime))
  }

  /** The file and attitude checks applied to a row that read cleanly. */
  function Screen(r: Reading, rd: Reader): RowOutcome
  {
    if r.name !in rd.existing then Skipped(NoImageFile)
    else match r.angles
      case None => Failed(UnboundAngles)
      case Some(a) =>
        if Abs(a.roll) > rd.maxAngle || Abs(a.pitch) > rd.maxAngle then Skipped(ExtremeAttitude)
        else Accepted(AircraftPose(r.name, r.lat, r.lon, r.alt, a.yaw, a.pitch, a.roll, r.flightTime))
  }

  /** One pass of the loop body of setAircraftPoses. */
  function ParseRow(line: string, rd: Reader): RowOutcome
  {
    if IsComment(line) then Skipped(CommentLine)
    else if IsHeader(line) then Skipped(HeaderLine)
    else match ReadFields(Split(line, ','), rd.order, rd.toFloat)
      case Err(e) => Failed(e)
      case Ok(r) => Screen(r, rd)
  }

  /** The outcome of every line, each read on its own. */
  function Outcomes(lines: seq<string>, rd: Reader): (os: seq<RowOutcome>)
    ensures |os| == |lines|
    ensures forall i :: 0 <= i < |lines| ==> os[i] == ParseRow(lines[i], rd)
  {
    seq(|lines|, i requires 0 <= i < |lines| => ParseRow(lines[i], rd))
  }

  /** The state of the loop after lines with the given outcomes: images appended so far and the exception, if raised. */
  function Collect(os: seq<RowOutcome>): Ingested
  {
    if os == [] then Ingested([], None)
    else
      var before := Collect(os[..|os| - 1]);
      if before.fault.Some? then before
      else match os[|os| - 1]
        case Accepted(p) => Ingested(before.poses + [p], None)
        case Skipped(_) => before
        case Failed(e) => Ingested(before.poses, Some(LineFault(|os| - 1, e)))
  }

  /** setAircraftPoses on the given lines. */
  function Ingest(lines: seq<string>, rd: Reader): Ingested
  {
    Collect(Outcomes(lines, rd))
  }

  /** Reference definition: the poses of the accepted outcomes, in line order. */
  function AcceptedOf(os: seq<RowOutcome>): seq<AircraftPose>
  {
    if os == [] then []
    else (if os[0].Accepted? then [os[0].pose] else []) + AcceptedOf(os[1..])
  }

  /** The poses of the accepted lines, in line order. */
  function AcceptedPoses(lines: seq<string>, rd: Reader): seq<AircraftPose>
  {
    AcceptedOf(Outcomes(lines, rd))
  }

  class Project {
    /** proj.image_list */
    var imageList: seq<AircraftPose>

    constructor ()
      ensures imageList == []
    {
      imageList := [];
    }

    /**
     * setAircraftPoses: resets the image list and appends one image per accepted line;
     * a faulty line ends the read with the images accepted before it.
     */
    method SetAircraftPoses(lines: seq<string>, rd: Reader) returns (fault: Option<LineFault>)
      modifies this
      ensures Ingested(imageList, fault) == Ingest(lines, rd)
    {
      ghost var os := Outcomes(lines, rd);
      imageList := [];
      var i := 0;
      while i < |lines|
        invariant 0 <= i <= |lines|
        invariant Collect(os[..i]) == Ingested(imageList, None)
      {
        assert os[..i + 1][..i] == os[..i];
        var outcome := ParseRow(lines[i], rd);
        assert outcome == os[i];
        match outcome {
          case Failed(e) =>
            fault := Some(LineFault(i, e));
            assert Collect(os[..i + 1]) == Ingested(imageList, fault);
            FaultStops(os, i + 1);
            return;
          case Skipped(_) =>
          case Accepted(p) =>
            imageList := imageList + [p];
        }
        i := i + 1;
      }
      assert os[..i] == os;
      fault := None;
    }
  }

  /** Once a line has raised, later lines change nothing. */
  lemma {:induction false} FaultStops(os: seq<RowOutcome>, n: nat)
    requires n <= |os|
    requires Collect(os[..n]).fault.Some?
    ensures Collect(os) == Collect(os[..n])
    decreases |os| - n
  {
    if n < |os| {
      assert os[..n + 1][..n] == os[..n];
      FaultStops(os, n + 1);
    } else {
      assert os[..n] == os;
    }
  }

  /** Comment and header lines produce no image and leave the state as it was. */
  lemma CommentsAndHeadersConsumeNothing(lines: seq<string>, line: string, rd: Reader)
    requires IsComment(line) || IsHeader(line)
    ensures ParseRow(line, rd).Skipped?
    ensures Ingest(lines + [line], rd) == Ingest(lines, rd)
  {
    var os := Outcomes(lines + [line], rd);
    assert os[..|lines|] == Outcomes(lines, rd);
  }

  /** A fault as it reads after a line is inserted at position p: from p on, one line further down. */
  function ShiftedFrom(fault: Option<LineFault>, p: nat): Option<LineFault>
  {
    match fault
    case None => None
    case Some(f) => Some(if f.line < p then f else LineFault(f.line + 1, f.fault))
  }

  /** Collect after inserting a skipped outcome at position p: the same images, a later fault moved down one line. */
  lemma {:induction false} CollectSkipInserted(os: seq<RowOutcome>, p: nat, s: Skip)
    requires p <= |os|
    ensures var r := Collect(os[..p] + [Skipped(s)] + os[p..]);
      && r.poses == Collect(os).poses
      && r.fault == ShiftedFrom(Collect(os).fault, p)
    decreases |os|
  {
    var ins := os[..p] + [Skipped(s)] + os[p..];
    if p == |os| {
      FaultBeforeEnd(os);
      assert ins == os + [Skipped(s)] by {
        assert os[..p] == os;
      }
      assert ins[..|ins| - 1] == os;
    } else {
      var init := os[..|os| - 1];
      CollectSkipInserted(init, p, s);
      assert ins[..|ins| - 1] == init[..p] + [Skipped(s)] + init[p..];
      assert ins[|ins| - 1] == os[|os| - 1];
    }
  }

  /** A fault names one of the lines read. */
  lemma {:induction false} FaultBeforeEnd(os: seq<RowOutcome>)
    ensures Collect(os).fault.Some? ==> Collect(os).fault.value.line < |os|
  {
    if os != [] {
      FaultBeforeEnd(os[..|os| - 1]);
    }
  }

  /** A comment or header line inserted anywhere leaves the images as they were and moves a later fault down one line. */
  lemma CommentsAndHeadersConsumeNothingAnywhere(lines: seq<string>, p: nat, line: string, rd: Reader)
    requires p <= |lines|
    requires IsComment(line) || IsHeader(line)
    ensures var r := Ingest(lines[..p] + [line] + lines[p..], rd);
      && r.poses == Ingest(lines, rd).poses
      && r.fault == ShiftedFrom(Ingest(lines, rd).fault, p)
  {
    var os := Outcomes(lines, rd);
    var o := ParseRow(line, rd);
    assert o.Skipped? by {
      CommentsAndHeadersConsumeNothing(lines, line, rd);
    }
    CollectSkipInserted(os, p, o.why);
    OutcomesInserted(lines, p, line, rd);
  }

  /** Lines are read independently of one another. */
  lemma OutcomesAppend(a: seq<string>, b: seq<string>, rd: Reader)
    ensures Outcomes(a + b, rd) == Outcomes(a, rd) + Outcomes(b, rd)
  {
    MapAppend(line => ParseRow(line, rd), a, b, Outcomes(a + b, rd), Outcomes(a, rd), Outcomes(b, rd));
  }

  lemma OutcomesInserted(lines: seq<string>, p: nat, line: string, rd: Reader)
    requires p <= |lines|
    ensures Outcomes(lines[..p] + [line] + lines[p..], rd) ==
      Outcomes(lines, rd)[..p] + [ParseRow(line, rd)] + Outcomes(lines, rd)[p..]
  {
    var os := Outcomes(lines, rd);
    assert os == os[..p] + os[p..];
    OutcomesAppend(lines[..p], [line] + lines[p..], rd);
    OutcomesAppend([line], lines[p..], rd);
    OutcomesAppend(lines[..p], lines[p..], rd);
    assert lines[..p] + lines[p..] == lines;
    assert lines[..p] + [line] + lines[p..] == lines[..p] + ([line] + lines[p..]);
  }

  /**
   * Column mapping: with 'ypr' fields 4, 5, 6 are yaw, pitch, roll; with 'rpy' they are
   * roll, pitch, yaw; pitch is field 5 either way. Any other order binds no angle.
   * flight_time is field 7 on rows of at least 8 fields and -1.0 otherwise.
   */
  lemma ColumnsOfReading(fields: seq<string>, order: Order, toFloat: string -> Option<real>)
    requires |fields| >= 1
    requires ReadFields(fields, order, toFloat).Ok?
    ensures var r := ReadFields(fields, order, toFloat).value;
      && r.name == fields[0]
      && r.lat == toFloat(fields[1]).value
      && r.lon == toFloat(fields[2]).value
      && r.alt == toFloat(fields[3]).value
      && (order == Ypr ==> r.angles == Some(Angles(toFloat(fields[4]).value, toFloat(fields[5]).value, toFloat(fields[6]).value)))
      && (order == Rpy ==> r.angles == Some(Angles(toFloat(fields[6]).value, toFloat(fields[5]).value, toFloat(fields[4]).value)))
      && (order == OtherOrder ==> r.angles == None)
      && r.flightTime == if |fields| >= 8 then toFloat(fields[7]).value else -1.0
  {
  }

  /** Whether a field k exists and parses as a number. */
  predicate Numeric(fields: seq<string>, k: nat, toFloat: string -> Option<real>) {
    k < |fields| && toFloat(fields[k]).Some?
  }

  /** A row reads without an exception exactly when every field the source converts is present and numeric. */
  lemma ReadFieldsSucceedsIff(fields: seq<string>, order: Order, toFloat: string -> Option<real>)
    requires |fields| >= 1
    ensures ReadFields(fields, order, toFloat).Ok? <==>
      && Numeric(fields, 1, toFloat) && Numeric(fields, 2, toFloat) && Numeric(fields, 3, toFloat)
      && (order != OtherOrder ==>
            Numeric(fields, 4, toFloat) && Numeric(fields, 5, toFloat) && Numeric(fields, 6, toFloat))
      && (|fields| >= 8 ==> Numeric(fields, 7, toFloat))
  {
  }

  /**
   * Skip filters: a row that read cleanly is dropped exactly when its file is missing,
   * or |roll| > max_angle, or |pitch| > max_angle. Yaw is never checked, and an angle
   * equal to max_angle is kept. An accepted row records the values read, unchanged.
   */
  lemma AcceptedIff(r: Reading, rd: Reader)
    requires r.angles.Some?
    ensures Screen(r, rd).Accepted? <==>
      r.name in rd.existing && Abs(r.angles.value.roll) <= rd.maxAngle && Abs(r.angles.value.pitch) <= rd.maxAngle
    ensures Screen(r, rd).Accepted? ==>
      Screen(r, rd).pose == AircraftPose(r.name, r.lat, r.lon, r.alt,
        r.angles.value.yaw, r.angles.value.pitch, r.angles.value.roll, r.flightTime)
    ensures !Screen(r, rd).Accepted? ==> Screen(r, rd).Skipped?
  {
  }

  /** A data line that reads cleanly goes through the file and attitude checks. */
  lemma DataRowScreened(line: string, rd: Reader)
    requires !IsComment(line) && !IsHeader(line)
    requires ReadFields(Split(line, ','), rd.order, rd.toFloat).Ok?
    ensures ParseRow(line, rd) == Screen(ReadFields(Split(line, ','), rd.order, rd.toFloat).value, rd)
  {
  }

  /** An order other than 'ypr' or 'rpy' fails on the first row whose image file exists. */
  lemma UnknownOrderFails(fields: seq<string>, rd: Reader)
    requires |fields| >= 1
    requires ReadFields(fields, rd.order, rd.toFloat).Ok?
    requires rd.order == OtherOrder
    ensures Screen(ReadFields(fields, rd.order, rd.toFloat).value, rd) ==
      if fields[0] in rd.existing then Failed(UnboundAngles) else Skipped(NoImageFile)
  {
  }

  /** The header pattern also matches data rows whose image name starts with "File". */
  lemma FileNamedImagesAreSkipped(line: string, rd: Reader)
    requires |line| >= 4 && line[..4] == "File"
    ensures ParseRow(line, rd) == Skipped(HeaderLine)
  {
    assert line[0] == "File"[0] == 'F';
    assert SkipSpace(line) == line;
    assert !IsComment(line) by {
      assert line[..1] != "#";
    }
    assert IsHeader(line);
  }

  lemma {:induction false} AcceptedOfAppend(os: seq<RowOutcome>, o: RowOutcome)
    ensures AcceptedOf(os + [o]) == AcceptedOf(os) + (if o.Accepted? then [o.pose] else [])
  {
    if os != [] {
      assert (os + [o])[1..] == os[1..] + [o];
      AcceptedOfAppend(os[1..], o);
    }
  }

  /**
   * The list of images is exactly the accepted rows in input order when no row raises,
   * and otherwise the accepted rows before the first row that raised.
   */
  lemma {:induction false} CollectCharacterised(os: seq<RowOutcome>)
    ensures var r := Collect(os);
      && (r.fault.None? <==> forall i :: 0 <= i < |os| ==> !os[i].Failed?)
      && (r.fault.None? ==> r.poses == AcceptedOf(os))
      && (r.fault.Some? ==>
            var k := r.fault.value.line;
            && k < |os|
            && os[k] == Failed(r.fault.value.fault)
            && (forall i :: 0 <= i < k ==> !os[i].Failed?)
            && r.poses == AcceptedOf(os[..k]))
  {
    if os != [] {
      var init := os[..|os| - 1];
      var last := os[|os| - 1];
      CollectCharacterised(init);
      AcceptedOfAppend(init, last);
      assert os == init + [last];
      var before := Collect(init);
      if before.fault.Some? {
        var k := before.fault.value.line;
        assert os[..k] == init[..k];
      }
    }
  }

  /** The same, stated on the lines of the file. */
  lemma IngestCharacterised(lines: seq<string>, rd: Reader)
    ensures var r := Ingest(lines, rd);
      && (r.fault.None? <==> forall i :: 0 <= i < |lines| ==> !ParseRow(lines[i], rd).Failed?)
      && (r.fault.None? ==> r.poses == AcceptedPoses(lines, rd))
      && (r.fault.Some? ==>
            var k := r.fault.value.line;
            && k < |lines|
            && ParseRow(lines[k], rd) == Failed(r.fault.value.fault)
            && (forall i :: 0 <= i < k ==> !ParseRow(lines[i], rd).Failed?)
            && r.poses == AcceptedPoses(lines[..k], rd))
  {
    IngestCompletes(lines, rd);
    IngestStopsAtFirstFault(lines, rd);
  }

  /** The no-fault half of IngestCharacterised. */
  lemma IngestCompletes(lines: seq<string>, rd: Reader)
    ensures var r := Ingest(lines, rd);
      && (r.fault.None? <==> forall i :: 0 <= i < |lines| ==> !ParseRow(lines[i], rd).Failed?)
      && (r.fault.None? ==> r.poses == AcceptedPoses(lines, rd))
  {
    CollectCharacterised(Outcomes(lines, rd));
  }

  /** The fault half of IngestCharacterised. */
  lemma IngestStopsAtFirstFault(lines: seq<string>, rd: Reader)
    ensures var r := Ingest(lines, rd);
      r.fault.Some? ==>
        var k := r.fault.value.line;
        && k < |lines|
        && ParseRow(lines[k], rd) == Failed(r.fault.value.fault)
        && (forall i :: 0 <= i < k ==> !ParseRow(lines[i], rd).Failed?)
        && r.poses == AcceptedPoses(lines[..k], rd)
  {
    var os := Outcomes(lines, rd);
    CollectCharacterised(os);
    if Collect(os).fault.Some? {
      OutcomesPrefix(lines, Collect(os).fault.value.line, rd);
    }
  }

  /** The outcomes of a prefix of the lines are a prefix of the outcomes. */
  lemma OutcomesPrefix(lines: seq<string>, k: nat, rd: Reader)
    requires k <= |lines|
    ensures Outcomes(lines[..k], rd) == Outcomes(lines, rd)[..k]
  {
    assert lines == lines[..k] + lines[k..];
    OutcomesAppend(lines[..k], lines[k..], rd);
  }

  /** The whole file read: starting from an empty list, the result is the accepted rows in order. */
  method ReadPoseFile(lines: seq<string>, rd: Reader) returns (poses: seq<AircraftPose>, fault: Option<LineFault>)
    ensures fault.None? <==> forall i :: 0 <= i < |lines| ==> !ParseRow(lines[i], rd).Failed?
    ensures fault.None? ==> poses == AcceptedPoses(lines, rd)
    ensures fault.Some? ==> fault.value.line < |lines| && poses == AcceptedPoses(lines[..fault.value.line], rd)
    ensures fault.Some? ==>
      && ParseRow(lines[fault.value.line], rd) == Failed(fault.value.fault)
      && forall i :: 0 <= i < fault.value.line ==> !ParseRow(lines[i], rd).Failed?
  {
    var proj := new Project();
    fault := proj.SetAircraftPoses(lines, rd);
    poses := proj.imageList;
    IngestCharacterised(lines, rd);
  }
}
