/** Edge compensation: pushes the coordinate of a border touch outward along one dimension. */
module EdgeComp {
  import opened EngineTypes
  import opened ZoneContacts
  import opened ZoneInfo

  /** Logarithm table of the firmware. */
  const LOG_TABLE: seq<int> :=
    [ 0x0000, 0x0000, 0x00B1, 0x0119, 0x0162, 0x019C, 0x01CA, 0x01F2, 0x0214, 0x0232, 0x024D, 0x0265,
      0x027C, 0x0290, 0x02A3, 0x02B5, 0x02C5, 0x02D5, 0x02E3, 0x02F1, 0x02FE, 0x030B, 0x0317, 0x0322,
      0x032D, 0x0338, 0x0342, 0x034B, 0x0355, 0x035E, 0x0366, 0x036F, 0x0377, 0x037F, 0x0386, 0x038E,
      0x0395, 0x039C, 0x03A3, 0x03A9, 0x03B0, 0x03B6, 0x03BC, 0x03C2, 0x03C8, 0x03CE, 0x03D4, 0x03D9,
      0x03DF, 0x03E4, 0x03E9, 0x03EE, 0x03F3, 0x03F8, 0x03FD, 0x0401, 0x0406, 0x040B, 0x040F, 0x0413,
      0x0418, 0x041C, 0x0420, 0x0424, 0x0428, 0x042C, 0x0430, 0x0434, 0x0438, 0x043B, 0x043F, 0x0443,
      0x0446, 0x044A, 0x044D, 0x0451, 0x0454, 0x0458, 0x045B, 0x045E, 0x0461, 0x0464, 0x0468, 0x046B,
      0x046E, 0x0471, 0x0474, 0x0477, 0x047A, 0x047D, 0x047F, 0x0482, 0x0485, 0x0488, 0x048B, 0x048D,
      0x0490, 0x0493, 0x0495, 0x0498, 0x049A, 0x049D, 0x049F, 0x04A2, 0x04A4, 0x04A7, 0x04A9, 0x04AC,
      0x04AE, 0x04B0, 0x04B3, 0x04B5, 0x04B7, 0x04BA, 0x04BC, 0x04BE, 0x04C0, 0x04C3, 0x04C5, 0x04C7,
      0x04C9, 0x04CB, 0x04CD, 0x04CF, 0x04D1, 0x04D4, 0x04D6, 0x04D8, 0x04DA, 0x04DC, 0x04DE, 0x04E0,
      0x04E1, 0x04E3, 0x04E5, 0x04E7, 0x04E9, 0x04EB, 0x04ED, 0x04EF, 0x04F1, 0x04F2, 0x04F4, 0x04F6,
      0x04F8, 0x04FA, 0x04FB, 0x04FD, 0x04FF, 0x0501, 0x0502, 0x0504, 0x0506, 0x0507, 0x0509, 0x050B,
      0x050C, 0x050E, 0x0510, 0x0511, 0x0513, 0x0514, 0x0516, 0x0518, 0x0519, 0x051B, 0x051C, 0x051E,
      0x051F, 0x0521, 0x0522, 0x0524, 0x0525, 0x0527, 0x0528, 0x052A, 0x052B, 0x052D, 0x052E, 0x052F,
      0x0531, 0x0532, 0x0534, 0x0535, 0x0537, 0x0538, 0x0539, 0x053B, 0x053C, 0x053D, 0x053F, 0x0540,
      0x0541, 0x0543, 0x0544, 0x0545, 0x0547, 0x0548, 0x0549, 0x054B, 0x054C, 0x054D, 0x054E, 0x0550,
      0x0551, 0x0552, 0x0553, 0x0555, 0x0556, 0x0557, 0x0558, 0x055A, 0x055B, 0x055C, 0x055D, 0x055E,
      0x0560, 0x0561, 0x0562, 0x0563, 0x0564, 0x0565, 0x0567, 0x0568, 0x0569, 0x056A, 0x056B, 0x056C,
      0x056D, 0x056F, 0x0570, 0x0571, 0x0572, 0x0573, 0x0574, 0x0575, 0x0576, 0x0577, 0x0578, 0x0579,
      0x057B, 0x057C, 0x057D, 0x057E, 0x057F, 0x0580, 0x0581, 0x0582, 0x0583, 0x0584, 0x0585, 0x0586,
      0x0587, 0x0588, 0x0589, 0x058A ]

  datatype Segment = Segment(edgeWidthThreshold: int, lutIdxLow: int, lutIdxHigh: int)

  const DEFAULT_PROFILE: seq<Segment> := [Segment(64, 2, 32), Segment(128, 32, 96), Segment(255, 96, 192)]

  predicate IsByte(x: int) { 0 <= x < 256 }

  ghost predicate ProfileOk(prof: seq<Segment>) {
    |prof| > 0 && forall k :: 0 <= k < |prof| ==> IsByte(prof[k].lutIdxLow) && IsByte(prof[k].lutIdxHigh)
  }

  /** Position between two table entries in 1/256, at most 255. */
  function Between(value: int, lo: int, hi: int): (r: int)
    ensures r <= 255
  {
    if hi == lo then 0 else Min(TruncDiv((value - lo) * 0x100, hi - lo), 0xFF)
  }

  /** The first segment wide enough for the edge, or the last one. */
  ghost predicate Chosen(prof: seq<Segment>, edgeWidth: int, k: int) {
    && 0 <= k < |prof| && (k == |prof| - 1 || edgeWidth <= prof[k].edgeWidthThreshold)
    && forall i :: 0 <= i < k ==> prof[i].edgeWidthThreshold < edgeWidth
  }

  function OffsetIn(s: Segment, subIdx: int): (r: int)
    requires IsByte(subIdx) && IsByte(s.lutIdxLow) && IsByte(s.lutIdxHigh)
    ensures r <= 255
  {
    Between(LOG_TABLE[subIdx], LOG_TABLE[s.lutIdxLow], LOG_TABLE[s.lutIdxHigh])
  }

  method ECGetOffset(subIdx: int, edgeWidth: int, prof: seq<Segment>) returns (r: int)
    requires IsByte(subIdx) && ProfileOk(prof)
    ensures exists k :: Chosen(prof, edgeWidth, k) && r == OffsetIn(prof[k], subIdx)
    ensures r <= 255
  {
    var k := 0;
    while k < |prof| - 1 && prof[k].edgeWidthThreshold < edgeWidth
      invariant 0 <= k < |prof| && forall i :: 0 <= i < k ==> prof[i].edgeWidthThreshold < edgeWidth
    {
      k := k + 1;
    }
    assert Chosen(prof, edgeWidth, k);
    r := OffsetIn(prof[k], subIdx);
  }

  // ----- blending, in 1/256 of a cell from the border -----

  predicate Blends(rawDist: int, compOff: int, blendRange: int) {
    rawDist > 0 && compOff < rawDist && rawDist < blendRange
  }

  function ECGetFinalOffset(rawDist: int, compOff: int, blendRange: int): int {
    if rawDist <= 0 then 0
    else if compOff >= rawDist then rawDist
    else if blendRange <= 0 || rawDist >= blendRange then rawDist
    else TruncDiv(rawDist * rawDist + compOff * (blendRange - rawDist), blendRange)
  }

  /** The compensated distance never exceeds the raw one and never gets past the border. It is strictly less
      exactly when the blend applies, and then not below the compensation target. */
  lemma FinalOffsetBetween(rawDist: int, compOff: int, blendRange: int)
    requires rawDist >= 0 && compOff >= 0
    ensures 0 <= ECGetFinalOffset(rawDist, compOff, blendRange) <= rawDist
    ensures ECGetFinalOffset(rawDist, compOff, blendRange) < rawDist <==> Blends(rawDist, compOff, blendRange)
    ensures Blends(rawDist, compOff, blendRange) ==> compOff <= ECGetFinalOffset(rawDist, compOff, blendRange)
  {
    if Blends(rawDist, compOff, blendRange) {
      BlendBetween(rawDist, compOff, blendRange);
    }
  }

  lemma BlendBetween(rawDist: int, compOff: int, blendRange: int)
    requires 0 <= compOff < rawDist < blendRange
    ensures compOff <= TruncDiv(rawDist * rawDist + compOff * (blendRange - rawDist), blendRange) < rawDist
  {
    WeightedBetween(rawDist, compOff, blendRange);
    var a := rawDist * rawDist + compOff * (blendRange - rawDist);
    assert a >= 0 by { MulLe(0, compOff, blendRange); }
    var q := a / blendRange;
    assert q * blendRange <= a < q * blendRange + blendRange;
    Bounded(compOff, q, blendRange);
    Bounded(q + 1, rawDist, blendRange);
  }

  lemma WeightedBetween(rawDist: int, compOff: int, blendRange: int)
    requires 0 <= compOff < rawDist < blendRange
    ensures compOff * blendRange <= rawDist * rawDist + compOff * (blendRange - rawDist) < rawDist * blendRange
  {
    var rest := blendRange - rawDist;
    MulLe(compOff, rawDist, rawDist);
    MulLe(compOff + 1, rawDist, rest);
    assert compOff * blendRange == compOff * rest + compOff * rawDist;
    assert rawDist * blendRange == rawDist * rest + rawDist * rawDist;
    assert (compOff + 1) * rest == compOff * rest + rest;
  }

  // ----- one dimension of a contact -----

  /** A coordinate in whole 1/256. */
  predicate InQ8(x: real) { (x * 256.0).Floor as real == x * 256.0 }

  /** Distance from the compensated border, in 1/256, of a coordinate cut to 1/256. */
  function RawDist(coord: real, near: real, far: real, farEdge: bool): (d: int)
    ensures d >= 0
  {
    Max(0, if farEdge then Trunc(far * 256.0) - Trunc(coord * 256.0) else Trunc(coord * 256.0) - Trunc(near * 256.0))
  }

  function Placed(near: real, far: real, farEdge: bool, off: int): real {
    if farEdge then far - off as real / 256.0 else near + off as real / 256.0
  }

  /** Toward the far border the result falls short of the coordinate only by the cut to 1/256, and exactly when
      the coordinate is not whole in 1/256 and no blend applies. It never passes the border. */
  lemma FarMovesOutward(coord: real, near: real, far: real, compOff: int, blendRange: int)
    requires 0.0 <= near <= coord <= far && InQ8(far) && compOff >= 0
    ensures var raw := RawDist(coord, near, far, true);
      var out := Placed(near, far, true, ECGetFinalOffset(raw, compOff, blendRange));
      && coord - 1.0 / 256.0 < out <= far
      && (out >= coord <==> InQ8(coord) || Blends(raw, compOff, blendRange))
  {
    var raw := RawDist(coord, near, far, true);
    FinalOffsetBetween(raw, compOff, blendRange);
    assert raw == (far * 256.0).Floor - (coord * 256.0).Floor;
  }

  /** Toward the near border it always moves outward or stays, and never passes the border. */
  lemma NearMovesOutward(coord: real, near: real, far: real, compOff: int, blendRange: int)
    requires 0.0 <= near <= coord <= far && InQ8(near) && compOff >= 0
    ensures near <= Placed(near, far, false,
            ECGetFinalOffset(RawDist(coord, near, far, false), compOff, blendRange)) <= coord
  {
    var raw := RawDist(coord, near, far, false);
    FinalOffsetBetween(raw, compOff, blendRange);
    assert raw == (coord * 256.0).Floor - (near * 256.0).Floor;
  }

  /** A zone centroid is whole in 1/256. */
  lemma CentroidsAreWhole(weighted: int, total: int)
    requires total != 0
    ensures InQ8(Centroid(weighted, total))
  {
  }

  /** A coordinate between the 1/256 steps outside the blend is cut, that is, moved inward. */
  lemma CutMovesInward()
    ensures var raw := RawDist(57.001, 0.0, 60.0, true);
      Placed(0.0, 60.0, true, ECGetFinalOffset(raw, 256, 512)) == 57.0 < 57.001
  {
    assert (57.001 * 256.0).Floor == 14592;
    assert (60.0 * 256.0).Floor == 15360;
  }

  function Compensated(coord: real, near: real, far: real, farEdge: bool, compOff: int, blendRange: int): real {
    Placed(near, far, farEdge, ECGetFinalOffset(RawDist(coord, near, far, farEdge), compOff, blendRange))
  }

  /** The target the chosen segment gives. */
  ghost predicate IsCompOffset(prof: seq<Segment>, edgeWidth: int, rawDist: int, compOff: int)
    requires ProfileOk(prof) && rawDist >= 0
  {
    exists k :: Chosen(prof, edgeWidth, k) && compOff == 256 - OffsetIn(prof[k], Min(rawDist, 255))
  }

  function Outer(e: EdgeInfo, isDimX: bool): int { if isDimX then e.outerColSigSum else e.outerRowSigSum }

  function Inner(e: EdgeInfo, isDimX: bool): int { if isDimX then e.innerColSigSum else e.innerRowSigSum }

  lemma MovesOutward(coord: real, near: real, far: real, farEdge: bool, compOff: int, blendRange: int)
    requires 0.0 <= near <= far && InQ8(near) && InQ8(far) && compOff >= 0
    ensures var out := Compensated(coord, near, far, farEdge, compOff, blendRange);
      && (near <= coord <= far && farEdge ==> coord - 1.0 / 256.0 < out <= far && (InQ8(coord) ==> coord <= out))
      && (near <= coord <= far && !farEdge ==> near <= out <= coord)
      && (coord > far && farEdge ==> out == far)
  {
    if near <= coord <= far {
      if farEdge {
        FarMovesOutward(coord, near, far, compOff, blendRange);
      } else {
        NearMovesOutward(coord, near, far, compOff, blendRange);
      }
    }
  }

  /** The zone reaches the first or the last line of the grid. */
  predicate NearEdge(e: EdgeInfo, isDimX: bool) { if isDimX then e.minCol <= 0 else e.minRow <= 0 }

  predicate FarEdge(e: EdgeInfo, isDimX: bool) { if isDimX then e.maxCol >= COL_MAX else e.maxRow >= ROW_MAX }

  /** Edge width from the outer and inner signal, as a byte. */
  function EdgeWidth(outer: int, inner: int): (w: int)
    ensures IsByte(w)
  {
    if inner > 0 then Min(TruncDiv(outer * 255, inner), 255) % 256 else 0
  }

  /** One dimension of a contact whose zone has the border sums `e`: untouched when the zone reaches neither border,
      otherwise placed at the blend of the raw distance and the target of the chosen segment. */
  ghost predicate IsDim(prof: seq<Segment>, range: real, coord: real, near: real, far: real, e: EdgeInfo, isDimX: bool,
                        out: real)
    requires ProfileOk(prof)
  {
    var farEdge := FarEdge(e, isDimX);
    if !NearEdge(e, isDimX) && !farEdge then out == coord
    else
      exists compOff ::
        && IsCompOffset(prof, EdgeWidth(Outer(e, isDimX), Inner(e, isDimX)), RawDist(coord, near, far, farEdge),
             compOff)
        && out == Compensated(coord, near, far, farEdge, compOff, Trunc(range * 256.0))
  }

  // ----- all contacts -----

  /** Edges of the panel, half a cell beyond the outermost sensor lines. */
  datatype EdgeBounds = EdgeBounds(colMin: real, colMax: real, rowMin: real, rowMax: real) {
    predicate Valid() {
      && 0.0 <= colMin <= colMax && InQ8(colMin) && InQ8(colMax)
      && 0.0 <= rowMin <= rowMax && InQ8(rowMin) && InQ8(rowMax)
    }
  }

  /** Within the bounds, and whole in 1/256. */
  predicate OnPanel(b: EdgeBounds, c: Contact) {
    b.colMin <= c.x <= b.colMax && InQ8(c.x) && b.rowMin <= c.y <= b.rowMax && InQ8(c.y)
  }

  /** A contact compensated with the border sums `e`. */
  ghost predicate CompensatedBy(prof: seq<Segment>, range: real, b: EdgeBounds, c: Contact, e: EdgeInfo, out: Contact)
    requires ProfileOk(prof)
  {
    if !e.touchesBorder then out == c
    else
      && IsDim(prof, range, c.x, b.colMin, b.colMax, e, true, out.x)
      && IsDim(prof, range, c.y, b.rowMin, b.rowMax, e, false, out.y)
      && out == c.(x := out.x, y := out.y, isEdge := true)
  }

  lemma WholeStep(border: real, off: int)
    requires InQ8(border)
    ensures InQ8(border + off as real / 256.0) && InQ8(border - (-off) as real / 256.0)
  {
    var n := (border * 256.0).Floor;
    var x := border + off as real / 256.0;
    assert x * 256.0 == n as real + off as real;
    assert x * 256.0 == (n + off) as real;
    assert ((n + off) as real).Floor == n + off;
    assert (-off) as real == -(off as real);
  }

  lemma PlacedIsWhole(near: real, far: real, farEdge: bool, off: int)
    requires InQ8(near) && InQ8(far)
    ensures InQ8(Placed(near, far, farEdge, off))
  {
    if farEdge { WholeStep(far, -off); } else { WholeStep(near, off); }
  }

  /** A coordinate moves outward or stays. */
  predicate Outward(e: EdgeInfo, isDimX: bool, coord: real, out: real) {
    if FarEdge(e, isDimX) then coord <= out else if NearEdge(e, isDimX) then out <= coord else out == coord
  }

  /** A whole coordinate within its bounds stays there, stays whole, and only moves outward. */
  lemma DimStaysOnPanel(prof: seq<Segment>, range: real, coord: real, near: real, far: real, e: EdgeInfo,
                        isDimX: bool, out: real)
    requires ProfileOk(prof) && 0.0 <= near <= coord <= far && InQ8(near) && InQ8(far) && InQ8(coord)
    requires IsDim(prof, range, coord, near, far, e, isDimX, out)
    ensures near <= out <= far && InQ8(out) && Outward(e, isDimX, coord, out)
  {
    var farEdge, raw := FarEdge(e, isDimX), RawDist(coord, near, far, FarEdge(e, isDimX));
    if NearEdge(e, isDimX) || farEdge {
      var compOff :|
        && IsCompOffset(prof, EdgeWidth(Outer(e, isDimX), Inner(e, isDimX)), raw, compOff)
        && out == Compensated(coord, near, far, farEdge, compOff, Trunc(range * 256.0));
      MovesOutward(coord, near, far, farEdge, compOff, Trunc(range * 256.0));
      PlacedIsWhole(near, far, farEdge, ECGetFinalOffset(raw, compOff, Trunc(range * 256.0)));
    }
  }

  /** Whatever border sums a contact within the bounds meets, compensation leaves it there, whole in 1/256, and moves
      it only outward. */
  lemma ContactStaysOnPanel(prof: seq<Segment>, range: real, b: EdgeBounds, c: Contact, e: EdgeInfo, out: Contact)
    requires ProfileOk(prof) && b.Valid() && OnPanel(b, c) && CompensatedBy(prof, range, b, c, e, out)
    ensures OnPanel(b, out) && out.id == c.id && out.state == c.state
    ensures e.touchesBorder ==> Outward(e, true, c.x, out.x) && Outward(e, false, c.y, out.y)
  {
    if e.touchesBorder {
      DimStaysOnPanel(prof, range, c.x, b.colMin, b.colMax, e, true, out.x);
      DimStaysOnPanel(prof, range, c.y, b.rowMin, b.rowMax, e, false, out.y);
    }
  }

  class EdgeCompensator {
    const enabled: bool
    const ecBlendRange: real
    const profile: seq<Segment>

    constructor (enabled: bool, ecBlendRange: real)
      ensures this.enabled == enabled && this.ecBlendRange == ecBlendRange
      ensures profile == DEFAULT_PROFILE && ProfileOk(profile)
    {
      this.enabled, this.ecBlendRange, profile := enabled, ecBlendRange, DEFAULT_PROFILE;
    }

    /** Contact `i` is compensated with the border sums at index `i`. */
    method Process(contacts: seq<Contact>, edgeInfos: seq<EdgeInfo>, bounds: EdgeBounds) returns (out: seq<Contact>)
      requires bounds.Valid() && ProfileOk(profile)
      ensures |out| == |contacts|
      ensures forall i :: 0 <= i < |out| ==>
                if enabled && i < |edgeInfos| then
                  CompensatedBy(profile, ecBlendRange, bounds, contacts[i], edgeInfos[i], out[i])
                else out[i] == contacts[i]
    {
      out := contacts;
      if !enabled { return; }
      for i := 0 to |contacts|
        invariant |out| == |contacts|
        invariant forall k :: 0 <= k < i ==>
                    if k < |edgeInfos| then
                      CompensatedBy(profile, ecBlendRange, bounds, contacts[k], edgeInfos[k], out[k])
                    else out[k] == contacts[k]
        invariant forall k :: i <= k < |out| ==> out[k] == contacts[k]
      {
        if i >= |edgeInfos| { break; }
        var c, e := contacts[i], edgeInfos[i];
        if !e.touchesBorder { continue; }
        var x := ProcessDim(c.x, bounds.colMin, bounds.colMax, e, true);
        var y := ProcessDim(c.y, bounds.rowMin, bounds.rowMax, e, false);
        out := out[i := c.(x := x, y := y, isEdge := true)];
      }
    }

    /** Compensation target for a distance from the border. */
    method CompOffset(rawDist: int, outer: int, inner: int) returns (compOff: int)
      requires rawDist >= 0 && ProfileOk(profile)
      ensures compOff >= 1 && IsCompOffset(profile, EdgeWidth(outer, inner), rawDist, compOff)
    {
      var offset := ECGetOffset(Min(rawDist, 255), EdgeWidth(outer, inner), profile);
      compOff := 256 - offset;
    }

    /** Compensate one dimension of a zone that reaches the grid border there. An in-bounds coordinate moves
        outward toward its border (but for the cut to 1/256 on the far side) and never past it. */
    method ProcessDim(coord: real, near: real, far: real, e: EdgeInfo, isDimX: bool) returns (out: real)
      requires 0.0 <= near <= far && InQ8(near) && InQ8(far) && ProfileOk(profile)
      ensures IsDim(profile, ecBlendRange, coord, near, far, e, isDimX, out)
      ensures near <= coord <= far && FarEdge(e, isDimX) ==>
                coord - 1.0 / 256.0 < out <= far && (InQ8(coord) ==> coord <= out)
      ensures near <= coord <= far && NearEdge(e, isDimX) && !FarEdge(e, isDimX) ==> near <= out <= coord
      ensures coord > far && FarEdge(e, isDimX) ==> out == far
    {
      var farEdge := FarEdge(e, isDimX);
      if !NearEdge(e, isDimX) && !farEdge { return coord; }
      var rawDist := RawDist(coord, near, far, farEdge);
      var compOff := CompOffset(rawDist, Outer(e, isDimX), Inner(e, isDimX));
      var blendRange := Trunc(ecBlendRange * 256.0);
      out := Compensated(coord, near, far, farEdge, compOff, blendRange);
      MovesOutward(coord, near, far, farEdge, compOff, blendRange);
    }
  }
}
