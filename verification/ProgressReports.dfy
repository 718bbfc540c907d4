/** Progress reports of one attempt: which of them reach the database. */
module ProgressReports {
  import opened Common

  const HALF_SECOND: int := 500_000_000
  const ONE_PERCENT: int := 100

  /** A report's clamped value and time; also what a reporter remembers of the last one it wrote. */
  datatype Report = Report(value: int, at: int)

  predicate Throttled(last: Option<Report>, report: Report) {
    last.Some? && report.at - last.value.at < HALF_SECOND && report.value - last.value.value < ONE_PERCENT
  }

  /** The reports written, given all reports made. */
  function Written(reports: seq<Report>): seq<Report> {
    if reports == [] then []
    else
      var n := |reports| - 1;
      var written := Written(reports[..n]);
      if Throttled(Last(written), reports[n]) then written else written + [reports[n]]
  }

  function Last(written: seq<Report>): Option<Report> {
    if written == [] then None else Some(written[|written| - 1])
  }

  lemma {:induction false} WrittenApart(reports: seq<Report>, i: nat)
    requires i + 1 < |Written(reports)|
    ensures var w := Written(reports);
      w[i + 1].at - w[i].at >= HALF_SECOND || w[i + 1].value - w[i].value >= ONE_PERCENT
  {
    var front := reports[..|reports| - 1];
    if i + 1 == |Written(front)| {
    } else {
      WrittenApart(front, i);
    }
  }

  lemma {:induction false} WrittenInTime(reports: seq<Report>, i: nat, k: nat)
    requires forall m, n | 0 <= m < n < |reports| :: reports[m].at <= reports[n].at
    requires i <= k < |Written(reports)|
    ensures Written(reports)[i].at <= Written(reports)[k].at <= reports[|reports| - 1].at
  {
    var front := reports[..|reports| - 1];
    if k < |Written(front)| {
      WrittenInTime(front, i, k);
    } else if i < k {
      WrittenInTime(front, i, k - 1);
    }
  }

  /** Writes within half a second of each other climb by a percent each, so an attempt writes at most a
      hundred times in any half second, however often its handler reports. */
  lemma {:induction false} WritesBounded(reports: seq<Report>, i: nat, k: nat)
    requires forall m, n | 0 <= m < n < |reports| :: reports[m].at <= reports[n].at
    requires forall m | 0 <= m < |reports| :: 0 <= reports[m].value <= 9999
    requires i <= k < |Written(reports)| && Written(reports)[k].at - Written(reports)[i].at < HALF_SECOND
    ensures Written(reports)[k].value - Written(reports)[i].value >= ONE_PERCENT * (k - i)
    ensures k - i + 1 <= 100
  {
    WrittenFrom(reports, i);
    WrittenFrom(reports, k);
    if i == k {
    } else {
      WrittenInTime(reports, i, k - 1);
      WrittenInTime(reports, k - 1, k);
      WrittenApart(reports, k - 1);
      WritesBounded(reports, i, k - 1);
    }
  }

  lemma {:induction false} WrittenFrom(reports: seq<Report>, i: nat)
    requires i < |Written(reports)|
    ensures Written(reports)[i] in reports
  {
    if i == |Written(reports[..|reports| - 1])| {
    } else {
      WrittenFrom(reports[..|reports| - 1], i);
    }
  }

  /** And what it has written is never half a second and never a percent behind what it was told last. */
  lemma {:induction false} LittleLost(reports: seq<Report>)
    requires reports != []
    ensures Written(reports) != []
    ensures var (told, shown) := (reports[|reports| - 1], Written(reports)[|Written(reports)| - 1]);
      told == shown || (told.at - shown.at < 500_000_000 && told.value - shown.value < 100)
  {
    var n := |reports| - 1;
    if reports[..n] == [] {
      assert Written(reports[..n]) == [];
    } else {
      LittleLost(reports[..n]);
    }
  }
}
