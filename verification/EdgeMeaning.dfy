/** Edge compensation said without its helpers: the share of a table segment, the width of an edge, the blend, and the
    whole of one dimension. */
module EdgeMeaning {
  import opened EngineTypes
  import opened ZoneInfo
  import opened EdgeComp

  /** `w` is the outer signal in 255ths of the inner one, cut off, and 255 from equality on. */
  ghost predicate WidthMeans(outer: int, inner: int, w: int) {
    && (inner <= 0 ==> w == 0)
    && (inner > 0 && outer >= inner ==> w == 255)
    && (inner > 0 && 0 <= outer < inner ==> w * inner <= 255 * outer < w * inner + inner)
  }

  lemma WidthExactly(outer: int, inner: int)
    ensures WidthMeans(outer, inner, EdgeWidth(outer, inner))
  {
    if inner > 0 && outer >= 0 {
      var q := TruncDiv(outer * 255, inner);
      TruncDivMeans(outer * 255, inner);
      if outer >= inner {
        MulLe(255, 255, inner);
        Bounded(255, q, inner);
      } else {
        Bounded(q, 255, inner);
        assert q <= 255;
      }
    }
  }

  /** `share` is where table entry `sub` stands between the two entries of the segment, in 256ths, cut toward the lower
      one, and at most 255. */
  ghost predicate ShareMeans(s: Segment, sub: int, share: int)
    requires IsByte(sub) && IsByte(s.lutIdxLow) && IsByte(s.lutIdxHigh)
  {
    var v, lo, hi := LOG_TABLE[sub], LOG_TABLE[s.lutIdxLow], LOG_TABLE[s.lutIdxHigh];
    && (lo == hi ==> share == 0)
    && (lo < hi <= v ==> share == 255)
    && (lo <= v < hi ==> 0 <= share <= 255 && share * (hi - lo) <= 256 * (v - lo) < share * (hi - lo) + (hi - lo))
    && (v < lo < hi ==> share <= 0 && share * (hi - lo) - (hi - lo) < 256 * (v - lo) <= share * (hi - lo))
  }

  lemma BetweenMeans(v: int, lo: int, hi: int)
    requires lo < hi
    ensures v >= hi ==> Between(v, lo, hi) == 255
    ensures lo <= v < hi ==>
      var share := Between(v, lo, hi);
      0 <= share <= 255 && share * (hi - lo) <= 256 * (v - lo) < share * (hi - lo) + (hi - lo)
    ensures v < lo ==>
      var share := Between(v, lo, hi);
      share <= 0 && share * (hi - lo) - (hi - lo) < 256 * (v - lo) <= share * (hi - lo)
  {
    var n := hi - lo;
    var q := TruncDiv((v - lo) * 256, n);
    TruncDivMeans((v - lo) * 256, n);
    if v >= hi {
      MulLe(n, v - lo, 256);
      Bounded(256, q, n);
    } else if v >= lo {
      Bounded(q, 255, n);
    }
  }

  lemma ShareExactly(s: Segment, sub: int)
    requires IsByte(sub) && IsByte(s.lutIdxLow) && IsByte(s.lutIdxHigh)
    ensures ShareMeans(s, sub, OffsetIn(s, sub))
  {
    var v, lo, hi := LOG_TABLE[sub], LOG_TABLE[s.lutIdxLow], LOG_TABLE[s.lutIdxHigh];
    if lo < hi { BetweenMeans(v, lo, hi); }
  }

  /** Between target and range the distance gives up, of what it exceeds the target by, the share by which it falls
      short of the range; elsewhere it stays. In whole 256ths, cut off. */
  ghost predicate BlendMeans(raw: int, target: int, range: int, off: int) {
    && (raw <= target || raw >= range ==> off == raw)
    && (target < raw < range ==>
          off * range <= raw * range - (raw - target) * (range - raw) < off * range + range)
  }

  lemma BlendExactly(raw: int, target: int, range: int)
    requires raw >= 0 && target >= 0
    ensures BlendMeans(raw, target, range, ECGetFinalOffset(raw, target, range))
  {
    if target < raw < range {
      TruncDivMeans(raw * raw + target * (range - raw), range);
      MulLe(0, target, range - raw);
      BlendExpands(raw, target, range);
    }
  }

  lemma BlendExpands(raw: int, target: int, range: int)
    ensures raw * range - (raw - target) * (range - raw) == raw * raw + target * (range - raw)
  {
    var rest := range - raw;
    assert (raw - target) * rest == raw * rest - target * rest;
    assert raw * rest == raw * range - raw * raw;
  }

  /** Just beyond the target the blend is still the target, and just short of the range it is one step out. */
  lemma BlendAtEnds(target: int, range: int)
    requires 0 <= target && target + 1 < range
    ensures ECGetFinalOffset(target + 1, target, range) == target
    ensures ECGetFinalOffset(range - 1, target, range) == range - 2
  {
    BlendStep(target + 1, target, range, target);
    BlendStep(range - 1, target, range, range - 2);
  }

  lemma BlendStep(raw: int, target: int, range: int, off: int)
    requires 0 <= target < raw < range
    requires off * range <= raw * raw + target * (range - raw) < off * range + range
    ensures ECGetFinalOffset(raw, target, range) == off
  {
    var a := raw * raw + target * (range - raw);
    MulLe(0, target, range - raw);
    var q := TruncDiv(a, range);
    TruncDivMeans(a, range);
    Bounded(q, off, range);
    Bounded(off, q, range);
  }

  /** For one target the compensated distance grows with the raw one: touches at one edge keep their order. */
  lemma BlendRises(raw: int, more: int, target: int, range: int)
    requires 0 <= raw <= more && target >= 0
    ensures ECGetFinalOffset(raw, target, range) <= ECGetFinalOffset(more, target, range)
  {
    FinalOffsetBetween(raw, target, range);
    FinalOffsetBetween(more, target, range);
    if target < raw && more < range {
      BlendRisesInside(raw, more, target, range);
    }
  }

  lemma BlendRisesInside(raw: int, more: int, target: int, range: int)
    requires 0 <= target < raw <= more < range
    ensures ECGetFinalOffset(raw, target, range) <= ECGetFinalOffset(more, target, range)
  {
    var a, b := raw * raw + target * (range - raw), more * more + target * (range - more);
    MulLe(0, target, range - raw);
    MulLe(0, target, range - more);
    SumRises(raw, more, target);
    assert b - a == more * more - raw * raw - target * (more - raw);
    TruncDivMeans(a, range);
    TruncDivMeans(b, range);
    Bounded(TruncDiv(a, range), TruncDiv(b, range), range);
  }

  lemma SumRises(raw: int, more: int, target: int)
    requires 0 <= target < raw <= more
    ensures more * more - raw * raw >= target * (more - raw)
  {
    MulLe(target, more + raw, more - raw);
    assert (more + raw) * (more - raw) == more * more - raw * raw;
  }

  // ----- one dimension -----

  /** Width of the edge, segment of the profile, share in it, distance from the border and final distance in 1/256. */
  datatype Steps = Steps(width: int, segment: int, share: int, raw: int, off: int)

  /** The distance of the coordinate from the last border if the zone reaches the last line, else from the first. */
  ghost predicate Measured(coord: real, near: real, far: real, last: bool, raw: int) {
    raw == if last then Trunc(far * 256.0) - Trunc(coord * 256.0) else Trunc(coord * 256.0) - Trunc(near * 256.0)
  }

  ghost predicate SegmentFits(prof: seq<Segment>, w: int, k: int) {
    && 0 <= k < |prof| && (k < |prof| - 1 ==> w <= prof[k].edgeWidthThreshold)
    && forall i :: 0 <= i < k ==> prof[i].edgeWidthThreshold < w
  }

  /** One dimension of a contact, step by step; `range` is the blend range in 1/256. */
  ghost predicate DimBy(prof: seq<Segment>, range: int, coord: real, near: real, far: real, e: EdgeInfo, isDimX: bool,
                        out: real, st: Steps)
    requires ProfileOk(prof)
  {
    var last := if isDimX then e.maxCol >= 59 else e.maxRow >= 39;
    && Measured(coord, near, far, last, st.raw) && IsByte(st.width)
    && (isDimX ==> WidthMeans(e.outerColSigSum, e.innerColSigSum, st.width))
    && (!isDimX ==> WidthMeans(e.outerRowSigSum, e.innerRowSigSum, st.width))
    && SegmentFits(prof, st.width, st.segment)
    && (st.raw >= 0 ==> ShareMeans(prof[st.segment], if st.raw < 256 then st.raw else 255, st.share))
    && (if st.raw >= 0 then BlendMeans(st.raw, 256 - st.share, range, st.off) else st.off == 0)
    && out == if last then far - st.off as real / 256.0 else near + st.off as real / 256.0
  }

  lemma PlacedExactly(s: Segment, raw: int, range: int, share: int, off: int)
    requires IsByte(s.lutIdxLow) && IsByte(s.lutIdxHigh) && share == OffsetIn(s, Min(Max(0, raw), 255))
    requires off == ECGetFinalOffset(Max(0, raw), 256 - share, range)
    ensures raw >= 0 ==> ShareMeans(s, if raw < 256 then raw else 255, share)
    ensures if raw >= 0 then BlendMeans(raw, 256 - share, range, off) else off == 0
  {
    if raw >= 0 {
      ShareExactly(s, Min(raw, 255));
      BlendExactly(raw, 256 - share, range);
    }
  }

  lemma StepsFit(prof: seq<Segment>, range: int, coord: real, near: real, far: real, e: EdgeInfo, isDimX: bool,
                 out: real, st: Steps)
    requires ProfileOk(prof) && Chosen(prof, st.width, st.segment)
    requires st.width == EdgeWidth(Outer(e, isDimX), Inner(e, isDimX))
    requires Measured(coord, near, far, FarEdge(e, isDimX), st.raw)
    requires out == Placed(near, far, FarEdge(e, isDimX), st.off)
    requires st.share == OffsetIn(prof[st.segment], Min(Max(0, st.raw), 255))
    requires st.off == ECGetFinalOffset(Max(0, st.raw), 256 - st.share, range)
    ensures DimBy(prof, range, coord, near, far, e, isDimX, out, st)
  {
    WidthExactly(Outer(e, isDimX), Inner(e, isDimX));
    PlacedExactly(prof[st.segment], st.raw, range, st.share, st.off);
  }

  /** A zone on the first or last line of the grid has its coordinate placed exactly so. */
  lemma DimExactly(prof: seq<Segment>, range: real, coord: real, near: real, far: real, e: EdgeInfo, isDimX: bool,
                   out: real, q8: int)
    requires ProfileOk(prof) && IsDim(prof, range, coord, near, far, e, isDimX, out) && q8 == Trunc(range * 256.0)
    requires NearEdge(e, isDimX) || FarEdge(e, isDimX)
    ensures exists st :: DimBy(prof, q8, coord, near, far, e, isDimX, out, st)
  {
    var last := FarEdge(e, isDimX);
    var d, w := RawDist(coord, near, far, last), EdgeWidth(Outer(e, isDimX), Inner(e, isDimX));
    var target :| IsCompOffset(prof, w, d, target) && out == Compensated(coord, near, far, last, target, q8);
    var k :| Chosen(prof, w, k) && target == 256 - OffsetIn(prof[k], Min(d, 255));
    var raw := if last then Trunc(far * 256.0) - Trunc(coord * 256.0) else Trunc(coord * 256.0) - Trunc(near * 256.0);
    var st := Steps(w, k, OffsetIn(prof[k], Min(d, 255)), raw, ECGetFinalOffset(d, target, q8));
    StepsFit(prof, q8, coord, near, far, e, isDimX, out, st);
  }
}
