/** The detail pipeline: one itinerary becomes the leg-by-leg lines of the
    details page. Each leg endpoint is rendered by GetPointInfo; the legs are
    walked left to right by ExtractLegDetails, which merges a leg's arrival with
    the next leg's departure when both name the same point. */
module Details {
  import opened Js
  import opened Transit
  import opened Utils

  /** Which end of a leg is rendered. */
  datatype Endpoint = From | To

  /** The rendered endpoint: time with delay, name with platform, and both. */
  datatype PointInfo = PointInfo(timeStr: string, nameStr: string, fullStr: string)

  const MaxNameLength := 45
  const Ellipsis := "..."

  // ----- one endpoint -----

  function ActualTime(leg: Leg, end: Endpoint): Timestamp {
    if end == From then leg.startTime else leg.endTime
  }

  function ScheduledTime(leg: Leg, end: Endpoint): Option<Timestamp> {
    if end == From then leg.scheduledStartTime else leg.scheduledEndTime
  }

  function Station(leg: Leg, end: Endpoint): StationPoint {
    if end == From then leg.from else leg.to
  }

  /** A name of more than 45 characters is cut to its first 42 and an ellipsis. */
  function TruncateName(name: string): (r: string)
    ensures |r| <= MaxNameLength
    ensures |name| <= MaxNameLength ==> r == name
    ensures |name| > MaxNameLength ==>
      |r| == MaxNameLength && r[..42] == name[..42] && r[42..] == Ellipsis
  {
    if |name| > MaxNameLength then name[..MaxNameLength - |Ellipsis|] + Ellipsis else name
  }

  /** The platform after a name: ` Pl.` and the real-time track, else the
      scheduled track, else nothing. */
  function PlatformSuffix(p: StationPoint): (r: string)
    ensures Truthy(p.track) ==> r == " Pl." + p.track.value
    ensures !Truthy(p.track) && Truthy(p.scheduledTrack) ==> r == " Pl." + p.scheduledTrack.value
    ensures !Truthy(p.track) && !Truthy(p.scheduledTrack) ==> r == ""
  {
    var track := Or(p.track, p.scheduledTrack);
    if Truthy(track) then " Pl." + track.value else ""
  }

  /** `getPointInfo`: the rendering of one endpoint of a leg. */
  function GetPointInfo(fmt: TimeFormatter, leg: Leg, end: Endpoint): (r: PointInfo)
    ensures r.fullStr == r.timeStr + " " + r.nameStr
    ensures var t := fmt(ActualTime(leg, end));
      |r.timeStr| >= |t| && r.timeStr[..|t|] == t &&
      r.timeStr[|t|..] == DelaySuffix(Delay(ActualTime(leg, end), ScheduledTime(leg, end))) &&
      (|r.timeStr| > |t| <==> Delay(ActualTime(leg, end), ScheduledTime(leg, end)) > 0)
    ensures ScheduledTime(leg, end).None? ==> r.timeStr == fmt(ActualTime(leg, end))
    ensures var name := TruncateName(Station(leg, end).name);
      |r.nameStr| >= |name| && r.nameStr[..|name|] == name &&
      r.nameStr[|name|..] == PlatformSuffix(Station(leg, end))
  {
    var time := fmt(ActualTime(leg, end));
    var timeStr := time + DelaySuffix(Delay(ActualTime(leg, end), ScheduledTime(leg, end)));
    var station := Station(leg, end);
    var name := TruncateName(station.name);
    var nameStr := name + PlatformSuffix(station);
    assert timeStr[..|time|] == time && nameStr[..|name|] == name;
    assert nameStr[|name|..] == PlatformSuffix(station);
    PointInfo(timeStr, nameStr, timeStr + " " + nameStr)
  }

  // ----- one leg's mode line -----

  /** What a leg travels by: "Walk", else display name, trip short name, mode. */
  function ModeLabel(leg: Leg): (r: string)
    ensures IsWalk(leg) ==> r == "Walk"
    ensures !IsWalk(leg) && Truthy(leg.displayName) ==> r == leg.displayName.value
    ensures !IsWalk(leg) && !Truthy(leg.displayName) && Truthy(leg.tripShortName) ==>
      r == leg.tripShortName.value
    ensures !IsWalk(leg) && !Truthy(leg.displayName) && !Truthy(leg.tripShortName) ==> r == leg.mode
  {
    if IsWalk(leg) then "Walk" else OrElse(Or(leg.displayName, leg.tripShortName), leg.mode)
  }

  const ModePrefix := "  |   "

  /** `  |   <label> (<minutes>min)`, the leg's duration rounded to minutes. */
  function ModeLine(leg: Leg): (r: string)
    ensures var text := ModeLabel(leg); var k := |ModePrefix| + |text|;
      |r| >= k + 6 && r[..|ModePrefix|] == ModePrefix && r[|ModePrefix|..k] == text &&
      r[k..k + 2] == " (" && r[|r| - 4..] == "min)" &&
      r[k + 2..|r| - 4] == IntToString(RoundDiv(leg.duration, 60))
  {
    var text := ModeLabel(leg);
    var minutes := IntToString(RoundDiv(leg.duration, 60));
    var r := ModePrefix + text + " (" + minutes + "min)";
    var k := |ModePrefix| + |text|;
    assert r[..|ModePrefix|] == ModePrefix && r[|ModePrefix|..k] == text;
    assert r[k..k + 2] == " (" && r[|r| - 4..] == "min)" && r[k + 2..|r| - 4] == minutes;
    r
  }

  // ----- the merge engine, stated per leg -----

  /** The one line shown for a leg's arrival and the next leg's departure at
      the same point: the arrival once when both times agree, else the
      waiting interval `<arr> - <dep> <name>`. */
  function MergedLine(arr: PointInfo, next: PointInfo): (r: string)
    ensures arr.timeStr == next.timeStr ==> r == arr.fullStr
    ensures arr.timeStr != next.timeStr ==>
      var t, nt, n := arr.timeStr, next.timeStr, arr.nameStr;
      |r| == |t| + 3 + |nt| + 1 + |n| &&
      r[..|t|] == t && r[|t|..|t| + 3] == " - " && r[|t| + 3..|t| + 3 + |nt|] == nt &&
      r[|t| + 3 + |nt|] == ' ' && r[|t| + 4 + |nt|..] == n
  {
    if arr.timeStr == next.timeStr then arr.fullStr
    else
      IntervalLayout(arr.timeStr, next.timeStr, arr.nameStr);
      arr.timeStr + " - " + next.timeStr + " " + arr.nameStr
  }

  /** The waiting-interval line `<t> - <nt> <n>` reads back as its parts. */
  lemma IntervalLayout(t: string, nt: string, n: string)
    ensures var r := t + " - " + nt + " " + n;
      |r| == |t| + 3 + |nt| + 1 + |n| &&
      r[..|t|] == t && r[|t|..|t| + 3] == " - " && r[|t| + 3..|t| + 3 + |nt|] == nt &&
      r[|t| + 3 + |nt|] == ' ' && r[|t| + 4 + |nt|..] == n
  {
    var s1 := t + " - ";
    var s2 := s1 + nt;
    var s3 := s2 + " ";
    var r := s3 + n;
    assert r[..|s3| + |n|] == r;
    Piece(r, s3, n);
    Piece(r, s2, " ");
    Piece(r, s1, nt);
    Piece(r, t, " - ");
  }

  /** How the merge engine renders one end of a leg. The details page uses
      GetPointInfo with its time formatter (PagePoint); the engine is stated
      for any renderer, so its proofs do not depend on how a point is drawn. */
  type PointRenderer = (Leg, Endpoint) -> PointInfo

  function PagePoint(fmt: TimeFormatter): (point: PointRenderer)
    ensures forall leg, end :: point(leg, end) == GetPointInfo(fmt, leg, end)
  {
    (leg, end) => GetPointInfo(fmt, leg, end)
  }

  /** Leg i of an itinerary as the merge engine sees it: whether it is a walk,
      its departure, mode and arrival lines, whether its arrival names the same
      point (name and platform) as the next leg's departure, and the line
      that would then stand for both. */
  datatype LegView<Line> = LegView(
    walk: bool,
    depLine: Line,
    modeLine: Line,
    arrLine: Line,
    mergesNext: bool,
    mergedLine: Line)

  function ViewLeg(point: PointRenderer, legs: seq<Leg>, i: nat): (v: LegView<string>)
    requires i < |legs|
    ensures v.mergesNext <==>
      i < |legs| - 1 && !IsWalk(legs[i]) &&
      point(legs[i], To).nameStr == point(legs[i + 1], From).nameStr
  {
    var leg := legs[i];
    var arr := point(leg, To);
    var hasNext := i < |legs| - 1;
    var next := if hasNext then point(legs[i + 1], From) else arr;
    LegView(
      IsWalk(leg),
      point(leg, From).fullStr,
      ModeLine(leg),
      arr.fullStr,
      Merges(point, legs, i),
      MergedLine(arr, next))
  }

  function ViewLegs(point: PointRenderer, legs: seq<Leg>): (vs: seq<LegView<string>>)
    ensures |vs| == |legs|
  {
    seq(|legs|, i requires 0 <= i < |legs| => ViewLeg(point, legs, i))
  }

  /** The fields of leg i's view. */
  lemma ViewLegFields(point: PointRenderer, legs: seq<Leg>, i: nat)
    requires i < |legs|
    ensures var v := ViewLegs(point, legs)[i];
      v.walk == IsWalk(legs[i]) &&
      v.depLine == point(legs[i], From).fullStr &&
      v.modeLine == ModeLine(legs[i]) &&
      v.arrLine == point(legs[i], To).fullStr &&
      (v.mergesNext <==> Merges(point, legs, i)) &&
      (i < |legs| - 1 ==>
        v.mergedLine == MergedLine(point(legs[i], To), point(legs[i + 1], From)))
  {
    assert ViewLegs(point, legs)[i] == ViewLeg(point, legs, i);
  }

  /** Only a leg that is neither a walk nor the last one merges with the next. */
  ghost predicate WellFormed<Line>(vs: seq<LegView<Line>>) {
    forall i :: 0 <= i < |vs| && vs[i].mergesNext ==> i < |vs| - 1 && !vs[i].walk
  }

  lemma ViewsWellFormed(point: PointRenderer, legs: seq<Leg>)
    ensures WellFormed(ViewLegs(point, legs))
  {
    var vs := ViewLegs(point, legs);
    forall i | 0 <= i < |vs| && vs[i].mergesNext
      ensures i < |vs| - 1 && !vs[i].walk
    {
      assert vs[i] == ViewLeg(point, legs, i);
    }
  }

  /** A walk that is not the last leg: its arrival is not shown. */
  predicate ElidesArrival<Line>(vs: seq<LegView<Line>>, i: nat)
    requires i < |vs|
  {
    vs[i].walk && i < |vs| - 1
  }

  /** The departure of leg i is shown unless the previous leg merged it. */
  predicate DepartureShown<Line>(vs: seq<LegView<Line>>, i: nat)
    requires i < |vs|
  {
    i == 0 || !vs[i - 1].mergesNext
  }

  function ArrivalLine<Line>(vs: seq<LegView<Line>>, i: nat): Line
    requires i < |vs|
  {
    if vs[i].mergesNext then vs[i].mergedLine else vs[i].arrLine
  }

  /** The lines leg i contributes: departure, mode, arrival, each where shown. */
  function LegBlock<Line>(vs: seq<LegView<Line>>, i: nat): seq<Line>
    requires i < |vs|
  {
    (if DepartureShown(vs, i) then [vs[i].depLine] else [])
    + [vs[i].modeLine]
    + (if ElidesArrival(vs, i) then [] else [ArrivalLine(vs, i)])
  }

  /** The blocks of all legs, in leg order. */
  function Blocks<Line>(vs: seq<LegView<Line>>): (bs: seq<seq<Line>>)
    ensures |bs| == |vs|
  {
    seq(|vs|, i requires 0 <= i < |vs| => LegBlock(vs, i))
  }

  /** The blocks one after the other. */
  function Flatten<T>(bs: seq<seq<T>>): seq<T> {
    if bs == [] then [] else Flatten(bs[..|bs| - 1]) + bs[|bs| - 1]
  }

  /** The detail lines, stated leg by leg. */
  function Lines<Line>(vs: seq<LegView<Line>>): seq<Line> {
    Flatten(Blocks(vs))
  }

  /** The detail lines of an itinerary as the page draws them. */
  function DetailLines(fmt: TimeFormatter, legs: seq<Leg>): seq<string> {
    Lines(ViewLegs(PagePoint(fmt), legs))
  }

  /** `extractLegDetails`: the detail lines of an itinerary as the page draws
      them, endpoints rendered by GetPointInfo. */
  method ExtractLegDetails(fmt: TimeFormatter, legs: seq<Leg>) returns (details: seq<string>)
    ensures details == DetailLines(fmt, legs)
  {
    details := ExtractLegDetailsWith(PagePoint(fmt), legs);
  }

  /** The loop of `extractLegDetails`: one pass over the legs carrying the
      "skip next departure" flag. It produces exactly the per-leg lines. */
  method ExtractLegDetailsWith(point: PointRenderer, legs: seq<Leg>) returns (details: seq<string>)
    ensures details == Lines(ViewLegs(point, legs))
  {
    ghost var vs := ViewLegs(point, legs);
    details := [];
    var skipNextDeparture := false;
    for i := 0 to |legs|
      invariant details == Flatten(Blocks(vs)[..i])
      invariant skipNextDeparture == (i > 0 && vs[i - 1].mergesNext)
    {
      NextBlock(vs, i);
      ViewLegFields(point, legs, i);
      ghost var before := details;
      var leg := legs[i];

      if !skipNextDeparture {
        var dep := point(leg, From);
        details := details + [dep.fullStr];
      }
      skipNextDeparture := false;
      ghost var shown := details;

      details := details + [ModeLine(leg)];

      if IsWalk(leg) && i < |legs| - 1 {
        BlockOf(vs, i, before, shown, []);
        continue;
      }

      var arr := point(leg, To);
      var last := arr.fullStr;
      if i < |legs| - 1 {
        var nextDep := point(legs[i + 1], From);
        if arr.nameStr == nextDep.nameStr {
          skipNextDeparture := true;
          if arr.timeStr != nextDep.timeStr {
            last := arr.timeStr + " - " + nextDep.timeStr + " " + arr.nameStr;
          }
        }
      }
      details := details + [last];
      BlockOf(vs, i, before, shown, [last]);
    }
    assert Blocks(vs)[..|legs|] == Blocks(vs);
  }

  // ----- flattening -----

  /** One iteration of ExtractLegDetails appends leg i's block. */
  lemma BlockOf<Line>(vs: seq<LegView<Line>>, i: nat, before: seq<Line>, shown: seq<Line>, tail: seq<Line>)
    requires i < |vs|
    requires DepartureShown(vs, i) ==> shown == before + [vs[i].depLine]
    requires !DepartureShown(vs, i) ==> shown == before
    requires tail == if ElidesArrival(vs, i) then [] else [ArrivalLine(vs, i)]
    ensures shown + [vs[i].modeLine] + tail == before + LegBlock(vs, i)
  {
  }

  lemma FlattenSnoc<T>(bs: seq<seq<T>>, b: seq<T>)
    ensures Flatten(bs + [b]) == Flatten(bs) + b
  {
    assert (bs + [b])[..|bs|] == bs;
  }

  lemma NextBlock<Line>(vs: seq<LegView<Line>>, i: nat)
    requires i < |vs|
    ensures Flatten(Blocks(vs)[..i + 1]) == Flatten(Blocks(vs)[..i]) + LegBlock(vs, i)
  {
    var bs := Blocks(vs);
    assert bs[..i + 1] == bs[..i] + [bs[i]];
    FlattenSnoc(bs[..i], bs[i]);
  }

  lemma {:induction false} FlattenPrefix<T>(bs: seq<seq<T>>, n: nat)
    requires n <= |bs|
    ensures |Flatten(bs[..n])| <= |Flatten(bs)|
    ensures Flatten(bs)[..|Flatten(bs[..n])|] == Flatten(bs[..n])
  {
    if n < |bs| {
      var init := bs[..|bs| - 1];
      assert bs[..n] == init[..n];
      FlattenPrefix(init, n);
    } else {
      assert bs[..n] == bs;
    }
  }

  /** Element k of block i sits at |Flatten(bs[..i])| + k. */
  lemma FlattenAt<T>(bs: seq<seq<T>>, i: nat, k: nat)
    requires i < |bs| && k < |bs[i]|
    ensures |Flatten(bs[..i])| + k < |Flatten(bs)|
    ensures Flatten(bs)[|Flatten(bs[..i])| + k] == bs[i][k]
  {
    assert bs[..i + 1] == bs[..i] + [bs[i]];
    FlattenSnoc(bs[..i], bs[i]);
    FlattenPrefix(bs, i + 1);
  }

  // ----- properties of the detail lines -----

  /** The number of merges among the first n legs. */
  function MergeCount<Line>(vs: seq<LegView<Line>>, n: nat): nat
    requires n <= |vs|
  {
    if n == 0 then 0 else MergeCount(vs, n - 1) + (if vs[n - 1].mergesNext then 1 else 0)
  }

  /** The number of non-final walks among the first n legs. */
  function ElidedCount<Line>(vs: seq<LegView<Line>>, n: nat): nat
    requires n <= |vs|
  {
    if n == 0 then 0 else ElidedCount(vs, n - 1) + (if ElidesArrival(vs, n - 1) then 1 else 0)
  }

  lemma {:induction false} LineCountUpTo<Line>(vs: seq<LegView<Line>>, n: nat)
    requires n <= |vs|
    ensures |Flatten(Blocks(vs)[..n])| + MergeCount(vs, n) + ElidedCount(vs, n)
      == 3 * n + (if n > 0 && vs[n - 1].mergesNext then 1 else 0)
  {
    if n > 0 {
      LineCountUpTo(vs, n - 1);
      NextBlock(vs, n - 1);
    } else {
      assert Blocks(vs)[..0] == [];
    }
  }

  /** Every leg gives three lines, less one per merge and one per non-final walk. */
  lemma LinesCount<Line>(vs: seq<LegView<Line>>)
    requires WellFormed(vs)
    ensures |Lines(vs)| == 3 * |vs| - MergeCount(vs, |vs|) - ElidedCount(vs, |vs|)
  {
    LineCountUpTo(vs, |vs|);
    assert Blocks(vs)[..|vs|] == Blocks(vs);
  }

  lemma {:induction false} SkipsAtMostOnePerLeg<Line>(vs: seq<LegView<Line>>, n: nat)
    requires WellFormed(vs) && n <= |vs|
    ensures MergeCount(vs, n) + ElidedCount(vs, n) <= n
  {
    if n > 0 {
      SkipsAtMostOnePerLeg(vs, n - 1);
    }
  }

  /** A non-empty itinerary gives between 2L + 1 and 3L lines. */
  lemma LinesBounds<Line>(vs: seq<LegView<Line>>)
    requires WellFormed(vs) && |vs| > 0
    ensures 2 * |vs| + 1 <= |Lines(vs)| <= 3 * |vs|
  {
    LinesCount(vs);
    SkipsAtMostOnePerLeg(vs, |vs| - 1);
  }

  /** Where the mode line of leg i stands in the output. */
  function ModePos<Line>(vs: seq<LegView<Line>>, i: nat): nat
    requires i < |vs|
  {
    |Flatten(Blocks(vs)[..i])| + (if DepartureShown(vs, i) then 1 else 0)
  }

  /** Every leg has its mode line, in leg order. */
  lemma ModeLineAt<Line>(vs: seq<LegView<Line>>, i: nat)
    requires i < |vs|
    ensures ModePos(vs, i) < |Lines(vs)| && Lines(vs)[ModePos(vs, i)] == vs[i].modeLine
  {
    FlattenAt(Blocks(vs), i, if DepartureShown(vs, i) then 1 else 0);
  }

  /** The output opens with the first leg's departure. */
  lemma LinesFirst<Line>(vs: seq<LegView<Line>>)
    requires |vs| > 0
    ensures |Lines(vs)| > 0 && Lines(vs)[0] == vs[0].depLine && ModePos(vs, 0) == 1
  {
    var bs := Blocks(vs);
    assert bs[..0] == [];
    FlattenAt(bs, 0, 0);
  }

  /** The output closes with the last leg's arrival, even when that leg is a
      walk; its mode line comes just before. */
  lemma LinesLast<Line>(vs: seq<LegView<Line>>)
    requires WellFormed(vs) && |vs| > 0
    ensures var lines := Lines(vs); var n := |lines|;
      n >= 2 && lines[n - 1] == vs[|vs| - 1].arrLine && ModePos(vs, |vs| - 1) == n - 2
  {
    var i := |vs| - 1;
    var bs := Blocks(vs);
    assert bs == bs[..i] + [bs[i]];
    FlattenSnoc(bs[..i], bs[i]);
    FlattenAt(bs, i, |bs[i]| - 1);
  }

  /** What stands between the mode lines of two consecutive legs: the merged
      line alone, the next departure alone after a walk, or the arrival and
      then the next departure. */
  lemma BetweenModeLines<Line>(vs: seq<LegView<Line>>, i: nat)
    requires WellFormed(vs) && i + 1 < |vs|
    ensures var lines := Lines(vs); var p := ModePos(vs, i); var q := ModePos(vs, i + 1);
      q < |lines| &&
      (vs[i].mergesNext ==>
         q == p + 2 && lines[p + 1] == vs[i].mergedLine) &&
      (ElidesArrival(vs, i) ==>
         q == p + 2 && lines[p + 1] == vs[i + 1].depLine) &&
      (!vs[i].mergesNext && !ElidesArrival(vs, i) ==>
         q == p + 3 && lines[p + 1] == vs[i].arrLine && lines[p + 2] == vs[i + 1].depLine)
  {
    var bs := Blocks(vs);
    var s := if DepartureShown(vs, i) then 1 else 0;
    NextBlock(vs, i);
    ModeLineAt(vs, i + 1);
    if !ElidesArrival(vs, i) {
      FlattenAt(bs, i, s + 1);
    }
    if !vs[i].mergesNext {
      FlattenAt(bs, i + 1, 0);
    }
  }

  // ----- the detail lines in terms of the rendered endpoints -----
  // Stated for any renderer; the page's is PagePoint, that is GetPointInfo.

  /** Leg i merges with the next leg on the page: it is neither a walk nor the
      last leg, and its arrival and the next departure render the same name
      and platform. */
  predicate Merges(point: PointRenderer, legs: seq<Leg>, i: nat)
    requires i < |legs|
  {
    i < |legs| - 1 && !IsWalk(legs[i]) &&
    point(legs[i], To).nameStr == point(legs[i + 1], From).nameStr
  }

  /** The number of merges among the first n legs. */
  function MergesUpTo(point: PointRenderer, legs: seq<Leg>, n: nat): nat
    requires n <= |legs|
  {
    if n == 0 then 0 else MergesUpTo(point, legs, n - 1) + (if Merges(point, legs, n - 1) then 1 else 0)
  }

  /** The number of walks among the first n legs that are not the last leg. */
  function NonFinalWalks(legs: seq<Leg>, n: nat): nat
    requires n <= |legs|
  {
    if n == 0 then 0 else NonFinalWalks(legs, n - 1) + (if IsWalk(legs[n - 1]) && n < |legs| then 1 else 0)
  }

  lemma {:induction false} CountsAgree(point: PointRenderer, legs: seq<Leg>, n: nat)
    requires n <= |legs|
    ensures var vs := ViewLegs(point, legs);
      MergesUpTo(point, legs, n) == MergeCount(vs, n) && NonFinalWalks(legs, n) == ElidedCount(vs, n)
  {
    if n > 0 {
      CountsAgree(point, legs, n - 1);
      ViewLegFields(point, legs, n - 1);
    }
  }

  /** Every leg gives its departure, mode and arrival lines, less one line per
      merge and one per walk that is not the last leg; so a non-empty
      itinerary gives between 2L + 1 and 3L lines. */
  lemma DetailsLineCount(point: PointRenderer, legs: seq<Leg>)
    ensures |Lines(ViewLegs(point, legs))| ==
      3 * |legs| - MergesUpTo(point, legs, |legs|) - NonFinalWalks(legs, |legs|)
    ensures |legs| > 0 ==> 2 * |legs| + 1 <= |Lines(ViewLegs(point, legs))| <= 3 * |legs|
  {
    var vs := ViewLegs(point, legs);
    ViewsWellFormed(point, legs);
    CountsAgree(point, legs, |legs|);
    LinesCount(vs);
    if |legs| > 0 {
      LinesBounds(vs);
    }
  }

  /** No legs, no lines. Otherwise the first line is the first departure and
      the last line the last arrival, even when the last leg is a walk. */
  lemma DetailsEnds(point: PointRenderer, legs: seq<Leg>)
    ensures legs == [] ==> Lines(ViewLegs(point, legs)) == []
    ensures legs != [] ==>
      var lines := Lines(ViewLegs(point, legs));
      |lines| >= 2 &&
      lines[0] == point(legs[0], From).fullStr &&
      lines[|lines| - 1] == point(legs[|legs| - 1], To).fullStr
  {
    var vs := ViewLegs(point, legs);
    if legs != [] {
      ViewsWellFormed(point, legs);
      LinesFirst(vs);
      LinesLast(vs);
      ViewLegFields(point, legs, 0);
      ViewLegFields(point, legs, |legs| - 1);
    } else {
      assert Blocks(vs) == [];
    }
  }

  /** Every leg's mode line appears, in leg order. */
  lemma DetailsModeLines(point: PointRenderer, legs: seq<Leg>, i: nat, j: nat)
    requires i < j < |legs|
    ensures var vs := ViewLegs(point, legs); var lines := Lines(ViewLegs(point, legs));
      ModePos(vs, i) < ModePos(vs, j) < |lines| &&
      lines[ModePos(vs, i)] == ModeLine(legs[i]) && lines[ModePos(vs, j)] == ModeLine(legs[j])
  {
    var vs := ViewLegs(point, legs);
    ViewsWellFormed(point, legs);
    ModeLineAt(vs, i);
    ModeLineAt(vs, j);
    ViewLegFields(point, legs, i);
    ViewLegFields(point, legs, j);
    ModePosIncreasing(vs, i, j);
  }

  lemma {:induction false} ModePosIncreasing<Line>(vs: seq<LegView<Line>>, i: nat, j: nat)
    requires WellFormed(vs) && i < j < |vs|
    ensures ModePos(vs, i) < ModePos(vs, j)
    decreases j - i
  {
    BetweenModeLines(vs, i);
    if i + 1 < j {
      ModePosIncreasing(vs, i + 1, j);
    }
  }

  /** After a walk that is not the last leg, the next departure stands
      alone between the two mode lines. */
  lemma DetailsJoinAfterWalk(point: PointRenderer, legs: seq<Leg>, i: nat)
    requires i + 1 < |legs| && IsWalk(legs[i])
    ensures var vs := ViewLegs(point, legs); var lines := Lines(vs);
      var p := ModePos(vs, i);
      ModePos(vs, i + 1) == p + 2 < |lines| && lines[p + 1] == point(legs[i + 1], From).fullStr
  {
    var vs := ViewLegs(point, legs);
    ViewsWellFormed(point, legs);
    ViewLegFields(point, legs, i);
    ViewLegFields(point, legs, i + 1);
    BetweenModeLines(vs, i);
  }

  /** When leg i merges with the next, one line stands between the two mode
      lines: the arrival once when both times agree, else the waiting interval. */
  lemma DetailsJoinMerged(point: PointRenderer, legs: seq<Leg>, i: nat)
    requires i + 1 < |legs| && Merges(point, legs, i)
    ensures var vs := ViewLegs(point, legs); var lines := Lines(vs);
      var p := ModePos(vs, i);
      ModePos(vs, i + 1) == p + 2 < |lines| &&
      lines[p + 1] == MergedLine(point(legs[i], To), point(legs[i + 1], From))
  {
    var vs := ViewLegs(point, legs);
    ViewsWellFormed(point, legs);
    ViewLegFields(point, legs, i);
    BetweenModeLines(vs, i);
  }

  /** Otherwise the arrival and then the next departure stand between the two
      mode lines. */
  lemma DetailsJoinApart(point: PointRenderer, legs: seq<Leg>, i: nat)
    requires i + 1 < |legs| && !IsWalk(legs[i]) && !Merges(point, legs, i)
    ensures var vs := ViewLegs(point, legs); var lines := Lines(vs);
      var p := ModePos(vs, i);
      ModePos(vs, i + 1) == p + 3 < |lines| &&
      lines[p + 1] == point(legs[i], To).fullStr && lines[p + 2] == point(legs[i + 1], From).fullStr
  {
    var vs := ViewLegs(point, legs);
    ViewsWellFormed(point, legs);
    ViewLegFields(point, legs, i);
    ViewLegFields(point, legs, i + 1);
    BetweenModeLines(vs, i);
  }

  /** A walk to the station followed by a ride from it: the walk's arrival is
      not shown, and the ride's departure follows the walk's mode line. */
  lemma WalkThenRide(point: PointRenderer, walk: Leg, ride: Leg)
    requires IsWalk(walk) && !IsWalk(ride)
    ensures Lines(ViewLegs(point, [walk, ride])) == [
      point(walk, From).fullStr,
      ModeLine(walk),
      point(ride, From).fullStr,
      ModeLine(ride),
      point(ride, To).fullStr]
  {
    var legs := [walk, ride];
    var vs := ViewLegs(point, legs);
    ViewLegFields(point, legs, 0);
    ViewLegFields(point, legs, 1);
    TwoLegsWalkFirst(vs);
  }

  lemma TwoLegsWalkFirst<Line>(vs: seq<LegView<Line>>)
    requires |vs| == 2 && vs[0].walk && !vs[0].mergesNext && !vs[1].mergesNext
    ensures Lines(vs) == [vs[0].depLine, vs[0].modeLine, vs[1].depLine, vs[1].modeLine, vs[1].arrLine]
  {
    var bs := Blocks(vs);
    assert bs[0] == [vs[0].depLine, vs[0].modeLine];
    assert bs[1] == [vs[1].depLine, vs[1].modeLine, vs[1].arrLine];
    assert bs == [] + [bs[0]] + [bs[1]];
    FlattenSnoc([], bs[0]);
    FlattenSnoc([bs[0]], bs[1]);
  }
}
