/** The front half of the touch engine: peaks out of the heat map, contacts out of the peaks. */
module Extractor {
  import opened EngineTypes
  import opened ZoneGrid
  import opened ZoneRun
  import opened Zones
  import opened ZoneContacts
  import opened ZonePeaks
  import opened Peaks
  import Detector
  import Expander

  /** Two different peaks are in one zone exactly when a path of cells at or above `t` joins them. */
  ghost predicate ZonesAreComponents(hm: seq<int>, peaks: seq<Peak>, labels: seq<int>, t: int) {
    && PeaksOk(hm, peaks) && |labels| == |peaks|
    && forall a: nat, b: nat :: a < |peaks| && b < |peaks| && a != b ==>
         (labels[a] == labels[b] <==> Linked(hm, t, PeakCell(peaks[a]), PeakCell(peaks[b])))
  }

  /** The same for peaks with thresholds of their own: some peak no later than both reaches both at its threshold. */
  ghost predicate ZonesMeet(hm: seq<int>, peaks: seq<Peak>, tholds: seq<int>, labels: seq<int>) {
    && PeaksOk(hm, peaks) && |labels| == |tholds| == |peaks|
    && forall a: nat, b: nat :: a < b < |peaks| ==> (labels[a] == labels[b] <==> Meet(hm, peaks, tholds, a, b))
  }

  /** The core of every flooded zone is the component of its peak at the peak's threshold, or the peak's own cell when
      the peak is below it. */
  ghost predicate CoresAreComponents(hm: seq<int>, peaks: seq<Peak>, tholds: seq<int>, cores: seq<set<int>>) {
    && PeaksOk(hm, peaks) && |cores| == |tholds| == |peaks|
    && forall p: nat, j: int :: p < |peaks| && IsCell(j) && cores[p] != {} ==>
         (j in cores[p] <==>
          if tholds[p] <= peaks[p].z then Linked(hm, tholds[p], PeakCell(peaks[p]), j) else j == PeakCell(peaks[p]))
  }

  /** The detector's ascending order makes the zone thresholds ascend. */
  lemma DetectedAreSuited(numer: int, sigThold: int, hm: seq<int>, peaks: seq<Peak>)
    requires TholdFits(numer, sigThold) && Standing(hm, peaks) && InOrder(peaks)
    ensures Suited(hm, peaks, Tholds(numer, sigThold, peaks))
  {
    var tholds := Tholds(numer, sigThold, peaks);
    forall p | 0 <= p < |peaks| ensures tholds[p] >= 1 { TholdIsExact(numer, sigThold, peaks[p].z); }
    forall p, q | 0 <= p <= q < |peaks| ensures tholds[p] <= tholds[q] {
      assert p < q ==> Strength(peaks[p]) <= Strength(peaks[q]);
      TholdIsExact(numer, sigThold, peaks[p].z);
      TholdIsExact(numer, sigThold, peaks[q].z);
      ScaleIsMonotone(numer, Min(sigThold, peaks[p].z), Min(sigThold, peaks[q].z));
    }
    forall p: nat | p < |peaks| ensures Alone(hm, peaks, p) {
    }
  }

  /** Peaks as the detector delivers them fall into zones by connection at their thresholds, whatever the scale and
      whether or not they reach the detection threshold or their own. */
  lemma ZonesByConnection(numer: int, sigThold: int, hm: seq<int>, peaks: seq<Peak>, h: History, labels: seq<int>)
    requires TholdFits(numer, sigThold) && FloodRun(hm, peaks, Tholds(numer, sigThold, peaks), h, |peaks|)
    requires Standing(hm, peaks) && InOrder(peaks) && labels == LabelsOf(hm, peaks, h.maps[|peaks|])
    ensures ZonesMeet(hm, peaks, Tholds(numer, sigThold, peaks), labels)
    ensures CoresAreComponents(hm, peaks, Tholds(numer, sigThold, peaks), h.cores)
  {
    var tholds := Tholds(numer, sigThold, peaks);
    DetectedAreSuited(numer, sigThold, hm, peaks);
    forall a: nat, b: nat | a < b < |peaks| ensures labels[a] == labels[b] <==> Meet(hm, peaks, tholds, a, b) {
      PeaksShareZoneIffMeet(hm, peaks, tholds, h, a, b);
    }
    forall p: nat, j: int | p < |peaks| && IsCell(j) && h.cores[p] != {}
      ensures j in h.cores[p] <==>
              if tholds[p] <= peaks[p].z then Linked(hm, tholds[p], PeakCell(peaks[p]), j) else j == PeakCell(peaks[p])
    {
      ZoneIsComponent(hm, peaks, tholds, h, |peaks|, p, j);
    }
  }

  /** When all of them reach the detection threshold there is one zone threshold, and two peaks share a zone exactly
      when connected there. */
  lemma ZonesAtOneThold(numer: int, sigThold: int, hm: seq<int>, peaks: seq<Peak>, h: History, labels: seq<int>)
    requires TholdFits(numer, sigThold) && FloodRun(hm, peaks, Tholds(numer, sigThold, peaks), h, |peaks|)
    requires Standing(hm, peaks) && forall p :: 0 <= p < |peaks| ==> peaks[p].z >= sigThold
    requires labels == LabelsOf(hm, peaks, h.maps[|peaks|])
    ensures ZonesAreComponents(hm, peaks, labels, CalcZoneThold(numer, sigThold, sigThold))
  {
    var t, tholds := CalcZoneThold(numer, sigThold, sigThold), Tholds(numer, sigThold, peaks);
    PeaksShareThold(numer, sigThold, hm, peaks);
    forall a: nat, b: nat | a < |peaks| && b < |peaks| && a != b
      ensures labels[a] == labels[b] <==> Linked(hm, t, PeakCell(peaks[a]), PeakCell(peaks[b]))
    {
      PeaksShareZoneIffLinked(hm, peaks, tholds, h, t, a, b);
    }
  }

  /** The peaks are the filtered twenty strongest accepted cells, in ascending order. */
  ghost predicate Detected(cfg: Config, hm: seq<int>, kept: seq<Peak>, dropped: seq<Peak>, peaks: seq<Peak>) {
    && Standing(hm, peaks) && TopOf(Accepted(cfg, hm), kept, dropped)
    && InOrder(peaks) && multiset(peaks) == multiset(Filtered(cfg, kept))
  }

  method Detect(det: Detector.PeakDetector, hm: seq<int>) returns (ghost kept: seq<Peak>, ghost dropped: seq<Peak>)
    requires |hm| == CELLS && det.cfg.threshold > 0 && (det.cfg.edgeThresholdEnabled ==> det.cfg.edgeThreshold > 0)
    modifies det
    ensures Detected(det.cfg, hm, kept, dropped, det.peaks)
    ensures AllReach(det.cfg) ==> forall p :: 0 <= p < |det.peaks| ==> det.peaks[p].z >= det.cfg.threshold
  {
    kept, dropped := det.Detect(hm);
  }

  method Expand(zone: Expander.ZoneExpander, hm: seq<int>, peaks: seq<Peak>, sigThold: int)
    returns (contacts: seq<Contact>, ghost t: Expander.Trace)
    requires zone.Valid() && PeaksOk(hm, peaks) && TholdFits(zone.numer, sigThold)
    modifies zone, zone.touchZones
    ensures zone.Valid() && zone.touchZones == old(zone.touchZones) && Rooted(t.labels)
    ensures |t.labels| == |t.scanned| == |t.flooded| == |zone.edgeInfos| == |t.pixels| == |peaks|
    ensures UnitsOk(hm, peaks, t.h, |peaks|, t.flooded, zone.edgeInfos, t.pixels)
    ensures ScannedUnits(t.labels, t.flooded, t.scanned, |peaks|)
    ensures FloodRun(hm, peaks, Tholds(zone.numer, sigThold, peaks), t.h, |peaks|)
    ensures t.labels == LabelsOf(hm, peaks, t.h.maps[|peaks|])
    ensures ContactsFollow(Expected(hm, peaks, t.labels, t.scanned, |peaks|), Roster(t.labels, |peaks|), t.all)
    ensures |t.all| == |peaks| && IsCut(t.all, zone.maxTouches, contacts)
    ensures |contacts| == if zone.maxTouches > 0 then Min(|peaks|, zone.maxTouches) else |peaks|
  {
    contacts, t := zone.Process(hm, peaks, sigThold);
  }

  /** A frame through both stages. The detector's peaks suit the expander; every peak gets one contact, up to
      the touch limit; every zone's core is the connected region of its peak at the peak's threshold; two peaks
      share a zone exactly when a peak no later than both reaches both at its threshold, which is when they are
      connected at the zone threshold if no peak can be below the detection threshold. */
  method Process(det: Detector.PeakDetector, zone: Expander.ZoneExpander, hm: seq<int>)
    returns (contacts: seq<Contact>, ghost t: Expander.Trace, ghost kept: seq<Peak>, ghost dropped: seq<Peak>)
    requires |hm| == CELLS && zone.Valid() && TholdFits(zone.numer, det.cfg.threshold)
    requires det.cfg.threshold > 0 && (det.cfg.edgeThresholdEnabled ==> det.cfg.edgeThreshold > 0)
    modifies det, zone, zone.touchZones
    ensures zone.Valid() && zone.touchZones == old(zone.touchZones)
    ensures Detected(det.cfg, hm, kept, dropped, det.peaks)
    ensures Rooted(t.labels)
    ensures |t.labels| == |t.scanned| == |t.flooded| == |zone.edgeInfos| == |t.pixels| == |det.peaks|
    ensures FloodRun(hm, det.peaks, Tholds(zone.numer, det.cfg.threshold, det.peaks), t.h, |det.peaks|)
    ensures UnitsOk(hm, det.peaks, t.h, |det.peaks|, t.flooded, zone.edgeInfos, t.pixels)
    ensures t.labels == LabelsOf(hm, det.peaks, t.h.maps[|det.peaks|])
    ensures ScannedUnits(t.labels, t.flooded, t.scanned, |det.peaks|)
    ensures ContactsFollow(Expected(hm, det.peaks, t.labels, t.scanned, |det.peaks|), Roster(t.labels, |det.peaks|),
            t.all)
    ensures |t.all| == |det.peaks| && IsCut(t.all, zone.maxTouches, contacts)
    ensures |contacts| == if zone.maxTouches > 0 then Min(|det.peaks|, zone.maxTouches) else |det.peaks|
    ensures var tholds := Tholds(zone.numer, det.cfg.threshold, det.peaks);
      ZonesMeet(hm, det.peaks, tholds, t.labels) && CoresAreComponents(hm, det.peaks, tholds, t.h.cores)
    ensures AllReach(det.cfg) ==>
      ZonesAreComponents(hm, det.peaks, t.labels, CalcZoneThold(zone.numer, det.cfg.threshold, det.cfg.threshold))
  {
    kept, dropped := Detect(det, hm);
    contacts, t := Expand(zone, hm, det.peaks, det.cfg.threshold);
    ZonesByConnection(zone.numer, det.cfg.threshold, hm, det.peaks, t.h, t.labels);
    if AllReach(det.cfg) { ZonesAtOneThold(zone.numer, det.cfg.threshold, hm, det.peaks, t.h, t.labels); }
  }
}
