/** The shared formatting helpers and the summary pipeline: one display line
    per itinerary for the search-results list. */
module Utils {
  import opened Js
  import opened Transit

  /** `formatTime`: renders an instant as a local clock label. Its locale and
      time-zone behaviour is not modelled, so every formatter is a parameter
      of the functions that use it. */
  type TimeFormatter = Timestamp -> string

  // ----- delay -----

  /** The delay in whole minutes, `Math.round((actual - scheduled) / 60000)`,
      where a missing scheduled instant stands for the actual one. */
  function Delay(actual: Timestamp, scheduled: Option<Timestamp>): (d: int)
    ensures scheduled.None? ==> d == 0
    ensures scheduled.Some? ==>
      var diff := actual - scheduled.value;
      60000 * d - 30000 <= diff < 60000 * d + 30000
  {
    var sched := if scheduled.Some? then scheduled.value else actual;
    RoundDiv(actual - sched, 60000)
  }

  /** The delay marker `(+d)`, present only for a positive delay. */
  function DelaySuffix(d: int): (r: string)
    ensures r == "" <==> d <= 0
    ensures d > 0 ==>
      |r| >= 4 && r[..2] == "(+" && r[|r| - 1] == ')' &&
      IsDigits(r[2..|r| - 1]) && DecimalValue(r[2..|r| - 1]) == d &&
      r[2..|r| - 1] == NatToString(d)
  {
    if d > 0 then
      var r := "(+" + IntToString(d) + ")";
      assert r[2..|r| - 1] == IntToString(d);
      r
    else ""
  }

  // ----- duration -----

  /** `formatDuration`: whole minutes of a number of seconds as hours and
      minutes. For a non-negative duration the text is `<h>:<mm>h`, where h
      is the shortest decimal text of the hours, mm is two digits between 00
      and 59, and h * 60 + mm is the whole number of minutes. */
  function FormatDuration(seconds: int): (r: string)
    ensures |r| >= 5 && r[|r| - 1] == 'h'
    ensures seconds >= 0 ==>
      var k := |r|;
      r[k - 4] == ':' && IsDigits(r[..k - 4]) && IsDigits(r[k - 3..k - 1]) &&
      DecimalValue(r[k - 3..k - 1]) < 60 &&
      DecimalValue(r[..k - 4]) * 60 + DecimalValue(r[k - 3..k - 1]) == seconds / 60
    ensures seconds >= 0 ==> r[..|r| - 4] == NatToString(seconds / 60 / 60)
  {
    var mins := seconds / 60;  // Math.floor(seconds / 60); Dafny's division by a positive divisor floors
    var h := mins / 60;
    var m := JsRem(mins, 60);
    var hs := IntToString(h);
    var mm := PadStart2(IntToString(m));
    var r := hs + ":" + mm + "h";
    HoursColonMinutes(hs, mm, r);
    if seconds >= 0 then
      assert m == mins % 60 && h * 60 + m == mins;
      assert hs == NatToString(h);
      TwoDigitMinutes(m);
      DurationText(hs, mm, h, m, mins, r);
      r
    else r
  }

  /** Reading `<hs>:<mm>h` back as numbers: the text before the colon
      denotes what hs denotes, the two characters before `h` what mm does,
      and together they give the minutes h * 60 + m. */
  lemma DurationText(hs: string, mm: string, h: nat, m: nat, mins: int, r: string)
    requires r == hs + ":" + mm + "h"
    requires |mm| == 2 && IsDigits(hs) && IsDigits(mm) && DecimalValue(hs) == h && DecimalValue(mm) == m
    requires h * 60 + m == mins
    ensures var k := |r|;
      r[k - 4] == ':' && r[..k - 4] == hs && r[k - 3..k - 1] == mm &&
      IsDigits(r[..k - 4]) && IsDigits(r[k - 3..k - 1]) &&
      DecimalValue(r[..k - 4]) == h && DecimalValue(r[k - 3..k - 1]) == m &&
      DecimalValue(r[..k - 4]) * 60 + DecimalValue(r[k - 3..k - 1]) == mins
  {
    HoursColonMinutes(hs, mm, r);
  }

  /** Minutes below an hour are padded to exactly two digits that read back as themselves. */
  lemma TwoDigitMinutes(m: nat)
    requires m < 60
    ensures var mm := PadStart2(NatToString(m));
      |mm| == 2 && IsDigits(mm) && DecimalValue(mm) == m
  {
    var ms := NatToString(m);
    var mm := PadStart2(ms);
    if m < 10 {
      assert mm == ['0', ms[0]];
      assert mm[..1] == ['0'] && ['0'][..0] == [] && ms[..0] == [];
    } else {
      assert ms == NatToString(m / 10) + [DigitChar(m % 10)];
    }
  }

  /** Reading `<hs>:<mm>h` back. */
  lemma HoursColonMinutes(hs: string, mm: string, r: string)
    requires |mm| >= 2 && r == hs + ":" + mm + "h"
    ensures var k := |r|;
      k == |hs| + |mm| + 2 && r[k - 1] == 'h' && r[|hs|] == ':' &&
      r[..|hs|] == hs && r[|hs| + 1..k - 1] == mm
  {
  }

  // ----- summary line -----

  /** The delay shown on a summary line: the itinerary's start against the
      first leg's scheduled start (`legs[0]?.scheduledStartTime`), which
      defaults to the itinerary's start. */
  function SummaryDelay(it: Itinerary): (d: int)
    ensures (|it.legs| == 0 || it.legs[0].scheduledStartTime.None?) ==> d == 0
    ensures |it.legs| > 0 && it.legs[0].scheduledStartTime.Some? ==>
      var diff := it.startTime - it.legs[0].scheduledStartTime.value;
      60000 * d - 30000 <= diff < 60000 * d + 30000
  {
    Delay(it.startTime, if |it.legs| > 0 then it.legs[0].scheduledStartTime else None)
  }

  /** `"Dir"` for a direct connection, else the number of changes and `x`. */
  function TransferLabel(transfers: int): (r: string)
    ensures r == "Dir" <==> transfers == 0
    ensures transfers != 0 ==>
      |r| >= 2 && r[|r| - 1] == 'x' &&
      (var n := r[..|r| - 1];
       |n| >= 1 && (if n[0] == '-' then IsDigits(n[1..]) else IsDigits(n)) && SignedValue(n) == transfers &&
       n == IntToString(transfers))
  {
    if transfers == 0 then "Dir"
    else
      var r := IntToString(transfers) + "x";
      assert r[..|r| - 1] == IntToString(transfers);
      r
  }

  /** `legs.find(l => l.mode !== 'WALK')`: the index of the first leg that is
      not a walk, or |legs| when there is none. */
  function FindNonWalk(legs: seq<Leg>): (k: nat)
    ensures k <= |legs|
    ensures forall j :: 0 <= j < k ==> IsWalk(legs[j])
    ensures k < |legs| ==> !IsWalk(legs[k])
  {
    if legs == [] then 0
    else if !IsWalk(legs[0]) then 0
    else 1 + FindNonWalk(legs[1..])
  }

  /** The leg whose train and platform a summary shows: the first leg that is
      not a walk, or the first leg when every leg is a walk. */
  function MainLegIndex(legs: seq<Leg>): (k: nat)
    requires |legs| > 0
    ensures k < |legs|
    ensures !IsWalk(legs[k]) ==> forall j :: 0 <= j < k ==> IsWalk(legs[j])
    ensures IsWalk(legs[k]) ==> k == 0 && forall j :: 0 <= j < |legs| ==> IsWalk(legs[j])
  {
    var k := FindNonWalk(legs);
    if k < |legs| then k else 0
  }

  /** The train name: display name, else trip short name, else "N/A". */
  function TrainName(leg: Leg): (r: string)
    ensures Truthy(leg.displayName) ==> r == leg.displayName.value
    ensures !Truthy(leg.displayName) && Truthy(leg.tripShortName) ==> r == leg.tripShortName.value
    ensures !Truthy(leg.displayName) && !Truthy(leg.tripShortName) ==> r == "N/A"
    ensures r != ""
  {
    OrElse(Or(leg.displayName, leg.tripShortName), "N/A")
  }

  /** The platform on a summary: real-time track, else scheduled track, else "?". */
  function SummaryTrack(p: StationPoint): (r: string)
    ensures Truthy(p.track) ==> r == p.track.value
    ensures !Truthy(p.track) && Truthy(p.scheduledTrack) ==> r == p.scheduledTrack.value
    ensures !Truthy(p.track) && !Truthy(p.scheduledTrack) ==> r == "?"
    ensures r != ""
  {
    OrElse(Or(p.track, p.scheduledTrack), "?")
  }

  /** `r` reads, position by position, as `start`, `delay`, ` - `, `end`,
      ` | `, `minutes`, `min | `, `transfers` and `tail`, in that order. */
  predicate LaidOut(r: string, start: string, delay: string, end: string, minutes: string,
                    transfers: string, tail: string)
  {
    var p1 := |start| + |delay|;
    var p2 := p1 + 3 + |end|;
    var p3 := p2 + 3 + |minutes|;
    var p4 := p3 + 6 + |transfers|;
    |r| == p4 + |tail| && r[..|start|] == start &&
    r[|start|..p1] == delay && r[p1..p1 + 3] == " - " && r[p1 + 3..p2] == end &&
    r[p2..p2 + 3] == " | " && r[p2 + 3..p3] == minutes && r[p3..p3 + 6] == "min | " &&
    r[p3 + 6..p4] == transfers && r[p4..] == tail
  }

  /** A summary line built by concatenation reads back as its parts. */
  lemma SummaryLayout(start: string, delay: string, end: string, minutes: string, transfers: string, tail: string)
    ensures var r := start + delay + " - " + end + " | " + minutes + "min | " + transfers + tail;
      LaidOut(r, start, delay, end, minutes, transfers, tail) &&
      r[|r| - |tail|..] == tail && r[|start|] == (if delay == "" then ' ' else delay[0])
  {
    var s1 := start + delay;
    var s2 := s1 + " - ";
    var s3 := s2 + end;
    var s4 := s3 + " | ";
    var s5 := s4 + minutes;
    var s6 := s5 + "min | ";
    var s7 := s6 + transfers;
    var r := s7 + tail;
    assert r[..|s7| + |tail|] == r;
    Piece(r, s7, tail);
    Piece(r, s6, transfers);
    Piece(r, s5, "min | ");
    Piece(r, s4, minutes);
    Piece(r, s3, " | ");
    Piece(r, s2, end);
    Piece(r, s1, " - ");
    Piece(r, start, delay);
  }

  /** The summary line of one itinerary:
      `<start><delay> - <end> | <D>min | <transfers> | <train> | Pl. <track>`. */
  function Summary(fmt: TimeFormatter, it: Itinerary): (r: string)
    requires |it.legs| > 0
    ensures var start := fmt(it.startTime);
      |r| > |start| && r[..|start|] == start &&
      (r[|start|] == '(' <==> SummaryDelay(it) > 0)
    ensures var main := it.legs[MainLegIndex(it.legs)];
      var tail := " | " + TrainName(main) + " | Pl. " + SummaryTrack(main.from);
      |r| >= |tail| && r[|r| - |tail|..] == tail
    ensures LaidOut(r, fmt(it.startTime), DelaySuffix(SummaryDelay(it)), fmt(it.endTime),
      IntToString(RoundDiv(it.duration, 60)), TransferLabel(it.transfers),
      " | " + TrainName(it.legs[MainLegIndex(it.legs)]) + " | Pl. " +
        SummaryTrack(it.legs[MainLegIndex(it.legs)].from))
  {
    var main := it.legs[MainLegIndex(it.legs)];
    var start := fmt(it.startTime);
    var delay := DelaySuffix(SummaryDelay(it));
    var minutes := IntToString(RoundDiv(it.duration, 60));
    var transfers := TransferLabel(it.transfers);
    var tail := " | " + TrainName(main) + " | Pl. " + SummaryTrack(main.from);
    var r := start + delay + " - " + fmt(it.endTime) + " | " + minutes + "min | " + transfers + tail;
    SummaryLayout(start, delay, fmt(it.endTime), minutes, transfers, tail);
    assert r[|start|] == if delay == "" then ' ' else '(';
    r
  }

  /** `extractItinerarySummaries`: one summary per itinerary, in input order. */
  function ExtractItinerarySummaries(fmt: TimeFormatter, its: seq<Itinerary>): (r: seq<string>)
    requires forall i :: 0 <= i < |its| ==> |its[i].legs| > 0
    ensures |r| == |its|
    ensures forall i :: 0 <= i < |its| ==> r[i] == Summary(fmt, its[i])
  {
    seq(|its|, i requires 0 <= i < |its| => Summary(fmt, its[i]))
  }
}
