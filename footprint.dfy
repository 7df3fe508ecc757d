/**
 * The textured-model step of the render script (scripts/6a-render-model.py): the pixel
 * grid laid over each image of the first group, the choice of surface the grid's rays
 * meet, and the conversion of the surface points into the model frame, each image a
 * little above the one before.
 *
 * Projecting a pixel out along the camera's ray and intersecting it with a plane or with
 * the terrain are not part of this model: they arrive as the parameter `intersect`.
 */
module Footprint {
  import opened Base
  import opened Itertools
  import opened TiePoints

  /** ac3d_steps: the grid has ac3d_steps + 1 points along each side. */
  const Ac3dSteps: nat := 8

  /** A pixel position [u, v]. */
  datatype Pixel = Pixel(u: real, v: real)

  /** np.linspace(0, stop, num): num values from 0 to stop, both ends included. */
  function Linspace(stop: real, num: nat): (r: seq<real>)
    ensures |r| == num
  {
    if num == 1 then [0.0]
    else seq(num, i requires 0 <= i < num => (i as real) * stop / ((num - 1) as real))
  }

  /** The values start at 0, end at stop and are evenly spaced. */
  lemma LinspaceShape(stop: real, num: nat)
    requires num > 0
    ensures Linspace(stop, num)[0] == 0.0
    ensures num > 1 ==> Linspace(stop, num)[num - 1] == stop
    ensures forall i :: 0 <= i < num - 1 ==>
      Linspace(stop, num)[i + 1] - Linspace(stop, num)[i] == stop / ((num - 1) as real)
  {
    if num > 1 {
      var r := Linspace(stop, num);
      var n := (num - 1) as real;
      assert r[num - 1] == n * stop / n;
      QuotientCancels(n, stop);
      forall i | 0 <= i < num - 1 ensures r[i + 1] - r[i] == stop / n {
        var t := i as real;
        assert r[i + 1] == (t + 1.0) * stop / n;
        assert r[i] == t * stop / n;
        EvenStep(t, stop, n);
      }
    }
  }

  lemma QuotientCancels(n: real, x: real)
    requires n > 0.0
    ensures n * x / n == x
  {
  }

  /** Consecutive multiples of stop / n differ by stop / n. */
  lemma EvenStep(t: real, stop: real, n: real)
    requires n > 0.0
    ensures (t + 1.0) * stop / n - t * stop / n == stop / n
  {
    assert (t + 1.0) * stop == t * stop + stop;
  }

  /** The grid the nested loops build: for v in vs, for u in us, [u, v]. */
  function Grid(us: seq<real>, vs: seq<real>): (g: seq<Pixel>)
  {
    var pairs := Product(vs, us);
    seq(|pairs|, k requires 0 <= k < |pairs| => Pixel(pairs[k].1, pairs[k].0))
  }

  /** Point r * |us| + c of the grid is pixel (us[c], vs[r]): rows of constant v, u varying fastest. */
  lemma GridAt(us: seq<real>, vs: seq<real>, r: nat, c: nat)
    requires r < |vs| && c < |us|
    ensures |Grid(us, vs)| == |vs| * |us|
    ensures r * |us| + c < |Grid(us, vs)|
    ensures Grid(us, vs)[r * |us| + c] == Pixel(us[c], vs[r])
  {
    ProductAt(vs, us, r, c);
  }

  /** One more v row. */
  lemma GridRow(us: seq<real>, vs: seq<real>, r: nat)
    requires r < |vs|
    ensures Grid(us, vs[..r + 1]) ==
      Grid(us, vs[..r]) + seq(|us|, c requires 0 <= c < |us| => Pixel(us[c], vs[r]))
  {
    assert vs[..r + 1][..r] == vs[..r];
  }

  /** The pixel grid of an image of the given size. */
  function ImageGrid(width: nat, height: nat): seq<Pixel>
  {
    Grid(Linspace(width as real, Ac3dSteps + 1), Linspace(height as real, Ac3dSteps + 1))
  }

  /** The grid covers the image from corner (0, 0) to corner (width, height). */
  lemma ImageGridCorners(width: nat, height: nat)
    ensures |ImageGrid(width, height)| == (Ac3dSteps + 1) * (Ac3dSteps + 1)
    ensures ImageGrid(width, height)[0] == Pixel(0.0, 0.0)
    ensures ImageGrid(width, height)[|ImageGrid(width, height)| - 1] == Pixel(width as real, height as real)
  {
    var n := Ac3dSteps + 1;
    LinspaceShape(width as real, n);
    LinspaceShape(height as real, n);
    GridAt(Linspace(width as real, n), Linspace(height as real, n), 0, 0);
    GridAt(Linspace(width as real, n), Linspace(height as real, n), n - 1, n - 1);
  }

  /** The grid_list loops for one image. */
  method BuildGrid(width: nat, height: nat) returns (grid: seq<Pixel>)
    ensures grid == ImageGrid(width, height)
  {
    var us := Linspace(width as real, Ac3dSteps + 1);
    var vs := Linspace(height as real, Ac3dSteps + 1);
    grid := [];
    var r := 0;
    while r < |vs|
      invariant 0 <= r <= |vs|
      invariant grid == Grid(us, vs[..r])
    {
      var c := 0;
      while c < |us|
        invariant 0 <= c <= |us|
        invariant grid == Grid(us, vs[..r]) + seq(c, j requires 0 <= j < c => Pixel(us[j], vs[r]))
      {
        grid := grid + [Pixel(us[c], vs[r])];
        c := c + 1;
      }
      GridRow(us, vs, r);
      r := r + 1;
    }
    assert vs[..r] == vs;
  }

  // ---------------------------------------------------------------------------
  // Surface choice

  /** What the grid's rays are intersected with: a horizontal plane at an elevation, or the terrain. */
  datatype Surface = Plane(elevation: Option<real>) | Terrain

  /** image.z_avg */
  function ZAvg(st: Option<Spread>): Option<real> {
    if st.Some? then Some(st.value.avg) else None
  }

  /**
   * `--ground` (a float, tested for truth), else `--srtm`, else the plane at the image's
   * own mean feature elevation.
   */
  function SelectSurface(ground: Option<real>, srtm: bool, zAvg: Option<real>): Surface
  {
    if Truthy(ground) then Plane(ground) else if srtm then Terrain else Plane(zAvg)
  }

  /** How the options decide the surface; `--ground 0` counts as no `--ground`. */
  lemma SurfaceChoice(ground: Option<real>, srtm: bool, zAvg: Option<real>)
    ensures Truthy(ground) ==> SelectSurface(ground, srtm, zAvg) == Plane(ground)
    ensures !Truthy(ground) ==> SelectSurface(ground, srtm, zAvg) == SelectSurface(None, srtm, zAvg)
    ensures SelectSurface(ground, srtm, zAvg) == Terrain <==> !Truthy(ground) && srtm
    ensures SelectSurface(ground, srtm, zAvg).Plane? ==>
      SelectSurface(ground, srtm, zAvg).elevation in {ground, zAvg}
  {
  }

  /** A forced ground elevation equal to the image's mean elevation gives the same plane. */
  lemma ForcedGroundAtMean(e: real, srtm: bool)
    requires e != 0.0
    ensures SelectSurface(Some(e), srtm, Some(e)) == SelectSurface(None, false, Some(e))
  {
  }

  // ---------------------------------------------------------------------------
  // Model coordinates

  /** [p[1], p[0], -(p[2] + depth)]: north-east-down to the model's east-north-up, lowered by depth. */
  function ToModel(p: Vec3, depth: real): (q: Vec3)
    ensures FromModel(q, depth) == p
  {
    Vec3(p.y, p.x, -(p.z + depth))
  }

  /** The inverse conversion. */
  function FromModel(q: Vec3, depth: real): (p: Vec3)
  {
    Vec3(q.y, q.x, -q.z - depth)
  }

  lemma ModelRoundTrip(q: Vec3, depth: real)
    ensures ToModel(FromModel(q, depth), depth) == q
  {
  }

  /** `depth` when the image at position k of the group is converted: 0.01 lower per earlier image. */
  function Depth(k: nat): real {
    -0.01 * (k as real)
  }

  /** A later image of the group lies above an earlier one, by 0.01 per position. */
  lemma LaterImagesAbove(p: Vec3, k: nat, k': nat)
    requires k < k'
    ensures ToModel(p, Depth(k)).z < ToModel(p, Depth(k')).z
    ensures ToModel(p, Depth(k')).z - ToModel(p, Depth(k)).z == 0.01 * ((k' - k) as real)
    ensures ToModel(p, Depth(k)).x == ToModel(p, Depth(k')).x && ToModel(p, Depth(k)).y == ToModel(p, Depth(k')).y
  {
  }

  /** image.grid_list: every intersection point in model coordinates at the given depth. */
  function Converted(pts: seq<Vec3>, depth: real): (r: seq<Vec3>)
    ensures |r| == |pts|
  {
    seq(|pts|, i requires 0 <= i < |pts| => ToModel(pts[i], depth))
  }

  /** The stored grid gives back the intersection points. */
  lemma ConvertedInvertible(pts: seq<Vec3>, depth: real)
    ensures forall i :: 0 <= i < |pts| ==> FromModel(Converted(pts, depth)[i], depth) == pts[i]
  {
  }

  /** The conversion loop. */
  method ConvertPoints(pts: seq<Vec3>, depth: real) returns (gridList: seq<Vec3>)
    ensures gridList == Converted(pts, depth)
  {
    gridList := [];
    var i := 0;
    while i < |pts|
      invariant 0 <= i <= |pts|
      invariant gridList == Converted(pts[..i], depth)
    {
      gridList := gridList + [ToModel(pts[i], depth)];
      i := i + 1;
    }
    assert pts[..i] == pts;
  }

  // ---------------------------------------------------------------------------
  // The group loop

  /** The last position of image k in the group, if it is there. */
  function LastPosition(group: seq<nat>, k: nat): (r: Option<nat>)
    ensures r.Some? ==> r.value < |group| && group[r.value] == k
    ensures r.Some? ==> forall j :: r.value < j < |group| ==> group[j] != k
    ensures r.None? ==> k !in group
  {
    if group == [] then None
    else if group[|group| - 1] == k then Some(|group| - 1)
    else LastPosition(group[..|group| - 1], k)
  }

  /** The points the intersection gives for image k at its group position. */
  function Footprint(intersect: (nat, seq<Pixel>, Surface) -> seq<Vec3>, k: nat, width: nat, height: nat,
                     zStats: Option<Spread>, ground: Option<real>, srtm: bool): seq<Vec3>
  {
    intersect(k, ImageGrid(width, height), SelectSurface(ground, srtm, ZAvg(zStats)))
  }

  /**
   * What grid_list holds for image k after the first i group positions: the converted
   * footprint at the depth of its last position so far, or what it held before.
   */
  function GroupGrid(group: seq<nat>, i: nat, k: nat, footprint: seq<Vec3>, before: seq<Vec3>): seq<Vec3>
    requires i <= |group|
  {
    match LastPosition(group[..i], k)
    case Some(pos) => Converted(footprint, Depth(pos))
    case None => before
  }

  /** One more group position overwrites the grid of the image it names and no other. */
  lemma GroupGridStep(group: seq<nat>, i: nat, k: nat, footprint: seq<Vec3>, before: seq<Vec3>)
    requires i < |group|
    ensures GroupGrid(group, i + 1, k, footprint, before) ==
      if group[i] == k then Converted(footprint, Depth(i)) else GroupGrid(group, i, k, footprint, before)
  {
    assert group[..i + 1][..i] == group[..i];
  }

  /**
   * The loop over the first group: each image's grid is intersected with the chosen
   * surface and stored converted at the depth of its position. An image listed twice keeps
   * the result of its last position; images outside the group keep their grid_list.
   */
  method RenderGroup(images: seq<Image>, group: seq<nat>, intersect: (nat, seq<Pixel>, Surface) -> seq<Vec3>,
                     ground: Option<real>, srtm: bool)
    requires Distinct(images)
    requires forall j :: 0 <= j < |group| ==> group[j] < |images|
    modifies set k | 0 <= k < |images| :: images[k]
    ensures forall k :: 0 <= k < |images| ==>
      && images[k].zList == old(images[k].zList) && images[k].zStats == old(images[k].zStats)
      && images[k].gridList ==
        (match LastPosition(group, k)
         case Some(pos) => Converted(Footprint(intersect, k, images[k].width, images[k].height, old(images[k].zStats), ground, srtm), Depth(pos))
         case None => old(images[k].gridList))
  {
    var depth := 0.0;
    var i := 0;
    while i < |group|
      invariant 0 <= i <= |group|
      invariant depth == Depth(i)
      invariant forall k :: 0 <= k < |images| ==>
        && images[k].zList == old(images[k].zList) && images[k].zStats == old(images[k].zStats)
        && images[k].gridList == GroupGrid(group, i, k,
             Footprint(intersect, k, images[k].width, images[k].height, old(images[k].zStats), ground, srtm),
             old(images[k].gridList))
    {
      forall k | 0 <= k < |images| {
        GroupGridStep(group, i, k,
          Footprint(intersect, k, images[k].width, images[k].height, old(images[k].zStats), ground, srtm),
          old(images[k].gridList));
      }
      RenderImage(images[group[i]], group[i], depth, intersect, ground, srtm);
      depth := depth - 0.01;
      i := i + 1;
    }
    assert group[..i] == group;
  }

  /** The loop body for image k of the group: its footprint, converted at the given depth. */
  method RenderImage(image: Image, k: nat, depth: real, intersect: (nat, seq<Pixel>, Surface) -> seq<Vec3>,
                     ground: Option<real>, srtm: bool)
    modifies image
    ensures image.zList == old(image.zList) && image.zStats == old(image.zStats)
    ensures image.gridList == Converted(Footprint(intersect, k, image.width, image.height, image.zStats, ground, srtm), depth)
  {
    var grid := BuildGrid(image.width, image.height);
    var surface := SelectSurface(ground, srtm, ZAvg(image.zStats));
    var pts := intersect(k, grid, surface);
    var converted := ConvertPoints(pts, depth);
    image.gridList := converted;
  }

  /** Without repeated images, each group member's grid sits at the depth of its position. */
  lemma DistinctGroupDepths(group: seq<nat>, pos: nat)
    requires forall a, b :: 0 <= a < b < |group| ==> group[a] != group[b]
    requires pos < |group|
    ensures LastPosition(group, group[pos]) == Some(pos)
  {
    var r := LastPosition(group, group[pos]);
    assert r.Some? by { assert group[pos] in group; }
  }
}
