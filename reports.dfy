/** The reports page: requests tallied by stage, by type, by team and by
    equipment category; the completion rate; the average completion time and
    work duration of repaired requests; and the five largest team and
    category tallies. The rows are what the store's queries return. */
module Reports {
  import opened Types

  // ---------------------------------------------------------------- stages

  /** The four stage buckets. */
  datatype StageCounts = StageCounts(newCount: nat, inProgress: nat, repaired: nat, scrap: nat)
  {
    function Get(s: Stage): nat
    {
      match s
      case New => newCount
      case InProgress => inProgress
      case Repaired => repaired
      case Scrap => scrap
    }

    function Total(): nat
    {
      newCount + inProgress + repaired + scrap
    }
  }

  /** How many rows are in stage `s`. */
  function CountStage(rows: seq<Stage>, s: Stage): nat
  {
    if rows == [] then 0
    else CountStage(rows[..|rows| - 1], s) + (if rows[|rows| - 1] == s then 1 else 0)
  }

  /** Every row is in exactly one stage, so the per-stage counts add up to
      the number of rows. */
  lemma {:induction false} StageCountsSum(rows: seq<Stage>)
    ensures CountStage(rows, New) + CountStage(rows, InProgress)
          + CountStage(rows, Repaired) + CountStage(rows, Scrap) == |rows|
  {
    if rows != [] {
      StageCountsSum(rows[..|rows| - 1]);
    }
  }

  lemma CountStageStep(rows: seq<Stage>, j: nat)
    requires j < |rows|
    ensures forall s :: CountStage(rows[..j + 1], s) == CountStage(rows[..j], s) + (if rows[j] == s then 1 else 0)
  {
    assert rows[..j + 1][..j] == rows[..j];
  }

  /** `stageCounts`: four buckets from 0, one increment per row. */
  method TallyStages(rows: seq<Stage>) returns (counts: StageCounts)
    ensures forall s :: counts.Get(s) == CountStage(rows, s)
    ensures counts.Total() == |rows|
  {
    counts := StageCounts(0, 0, 0, 0);
    var j := 0;
    while j < |rows|
      invariant 0 <= j <= |rows|
      invariant counts.newCount == CountStage(rows[..j], New)
      invariant counts.inProgress == CountStage(rows[..j], InProgress)
      invariant counts.repaired == CountStage(rows[..j], Repaired)
      invariant counts.scrap == CountStage(rows[..j], Scrap)
    {
      CountStageStep(rows, j);
      if rows[j] == New {
        counts := counts.(newCount := counts.newCount + 1);
      } else if rows[j] == InProgress {
        counts := counts.(inProgress := counts.inProgress + 1);
      } else if rows[j] == Repaired {
        counts := counts.(repaired := counts.repaired + 1);
      } else {
        counts := counts.(scrap := counts.scrap + 1);
      }
      j := j + 1;
    }
    assert rows[..j] == rows;
    StageCountsSum(rows);
  }

  // ----------------------------------------------------------------- types

  /** The two request-type buckets. */
  datatype TypeCounts = TypeCounts(corrective: nat, preventive: nat)
  {
    function Get(t: RequestType): nat
    {
      match t
      case Corrective => corrective
      case Preventive => preventive
    }
  }

  function CountType(rows: seq<RequestType>, t: RequestType): nat
  {
    if rows == [] then 0
    else CountType(rows[..|rows| - 1], t) + (if rows[|rows| - 1] == t then 1 else 0)
  }

  /** `typeCounts`: two buckets from 0, one increment per row. */
  method TallyTypes(rows: seq<RequestType>) returns (counts: TypeCounts)
    ensures forall t :: counts.Get(t) == CountType(rows, t)
    ensures counts.corrective + counts.preventive == |rows|
  {
    counts := TypeCounts(0, 0);
    var j := 0;
    while j < |rows|
      invariant 0 <= j <= |rows|
      invariant forall t :: counts.Get(t) == CountType(rows[..j], t)
      invariant counts.corrective + counts.preventive == j
    {
      assert rows[..j + 1][..j] == rows[..j];
      if rows[j] == Corrective {
        counts := counts.(corrective := counts.corrective + 1);
      } else {
        counts := counts.(preventive := counts.preventive + 1);
      }
      j := j + 1;
    }
    assert rows[..j] == rows;
  }

  // ------------------------------------------------------ teams, categories

  /** A tally keyed by name, in the order the names were first seen, as a
      JavaScript object lists its keys. */
  type Tally = seq<(string, nat)>

  /** How many rows are related to `name`. */
  function CountName(rows: seq<Option<string>>, name: string): nat
  {
    if rows == [] then 0
    else CountName(rows[..|rows| - 1], name) + (if rows[|rows| - 1] == Some(name) then 1 else 0)
  }

  /** How many rows have a related row at all. */
  function CountRelated(rows: seq<Option<string>>): (n: nat)
    ensures n <= |rows|
  {
    if rows == [] then 0
    else CountRelated(rows[..|rows| - 1]) + (if rows[|rows| - 1].Some? then 1 else 0)
  }

  function SumCounts(tally: Tally): nat
  {
    if tally == [] then 0 else SumCounts(tally[..|tally| - 1]) + tally[|tally| - 1].1
  }

  lemma {:induction false} SumCountsBump(tally: Tally, k: nat)
    requires k < |tally|
    ensures SumCounts(tally[k := (tally[k].0, tally[k].1 + 1)]) == SumCounts(tally) + 1
  {
    var last := |tally| - 1;
    var t' := tally[k := (tally[k].0, tally[k].1 + 1)];
    if k < last {
      assert t'[..last] == tally[..last][k := (tally[k].0, tally[k].1 + 1)];
      SumCountsBump(tally[..last], k);
    } else {
      assert t'[..last] == tally[..last];
    }
  }

  predicate DistinctNames(tally: Tally)
  {
    forall i, j :: 0 <= i < j < |tally| ==> tally[i].0 != tally[j].0
  }

  /** Where `name` is in the tally, or `|tally|` when it is not. */
  function IndexOf(tally: Tally, name: string): (k: nat)
    ensures k <= |tally|
    ensures k < |tally| ==> tally[k].0 == name
    ensures k == |tally| ==> forall i :: 0 <= i < |tally| ==> tally[i].0 != name
  {
    if tally == [] then 0
    else if tally[|tally| - 1].0 == name then |tally| - 1
    else
      var k := IndexOf(tally[..|tally| - 1], name);
      if k < |tally| - 1 then k else |tally|
  }

  /** `tally` counts `rows` by name: each name once, with its number of
      rows, every related name present, and no row without a related row
      counted. */
  ghost predicate IsTallyOf(tally: Tally, rows: seq<Option<string>>)
  {
    && DistinctNames(tally)
    && (forall i :: 0 <= i < |tally| ==> tally[i].1 == CountName(rows, tally[i].0) && tally[i].1 > 0)
    && (forall name :: CountName(rows, name) > 0 ==> exists i :: 0 <= i < |tally| && tally[i].0 == name)
    && SumCounts(tally) == CountRelated(rows)
  }

  lemma CountsAppend(rows: seq<Option<string>>, row: Option<string>)
    ensures forall n :: CountName(rows + [row], n) == CountName(rows, n) + (if row == Some(n) then 1 else 0)
    ensures CountRelated(rows + [row]) == CountRelated(rows) + (if row.Some? then 1 else 0)
  {
    assert (rows + [row])[..|rows|] == rows;
  }

  /** A row without a related row leaves the tally as it is. */
  lemma TallySkip(tally: Tally, rows: seq<Option<string>>, row: Option<string>)
    requires IsTallyOf(tally, rows) && row.None?
    ensures IsTallyOf(tally, rows + [row])
  {
    CountsAppend(rows, row);
  }

  /** A row related to a name already tallied adds one to that name. */
  lemma TallyBump(tally: Tally, rows: seq<Option<string>>, name: string, k: nat)
    requires IsTallyOf(tally, rows) && k < |tally| && tally[k].0 == name
    ensures IsTallyOf(tally[k := (name, tally[k].1 + 1)], rows + [Some(name)])
  {
    var rows' := rows + [Some(name)];
    var tally' := tally[k := (name, tally[k].1 + 1)];
    CountsAppend(rows, Some(name));
    SumCountsBump(tally, k);
    forall n | CountName(rows', n) > 0
      ensures exists i :: 0 <= i < |tally'| && tally'[i].0 == n
    {
      if n != name {
        var i :| 0 <= i < |tally| && tally[i].0 == n;
        assert tally'[i].0 == n;
      } else {
        assert tally'[k].0 == n;
      }
    }
  }

  /** A row related to a name not yet tallied appends that name with 1. */
  lemma TallyAppend(tally: Tally, rows: seq<Option<string>>, name: string)
    requires IsTallyOf(tally, rows) && forall i :: 0 <= i < |tally| ==> tally[i].0 != name
    ensures IsTallyOf(tally + [(name, 1)], rows + [Some(name)])
  {
    var rows' := rows + [Some(name)];
    var tally' := tally + [(name, 1)];
    CountsAppend(rows, Some(name));
    assert tally'[..|tally|] == tally;
    assert CountName(rows, name) == 0;
    forall n | CountName(rows', n) > 0
      ensures exists i :: 0 <= i < |tally'| && tally'[i].0 == n
    {
      if n != name {
        var i :| 0 <= i < |tally| && tally[i].0 == n;
        assert tally'[i].0 == n;
      } else {
        assert tally'[|tally|].0 == n;
      }
    }
  }

  /** `acc[name] = (acc[name] || 0) + 1`: one more for `name`, appended
      with 1 when it is not tallied yet. */
  function Counted(tally: Tally, name: string): (out: Tally)
    ensures |tally| <= |out| <= |tally| + 1
    ensures forall i :: 0 <= i < |tally| && tally[i].0 != name ==> out[i] == tally[i]
    ensures |out| == |tally| + 1 <==> forall i :: 0 <= i < |tally| ==> tally[i].0 != name
    ensures |out| == |tally| + 1 ==> out[|tally|] == (name, 1)
    ensures DistinctNames(tally) ==> forall i :: 0 <= i < |tally| && tally[i].0 == name ==> out[i] == (name, tally[i].1 + 1)
  {
    var k := IndexOf(tally, name);
    if k < |tally| then tally[k := (name, tally[k].1 + 1)] else tally + [(name, 1)]
  }

  /** Counting the next row keeps the tally a tally of the rows seen. */
  lemma TallyStep(tally: Tally, rows: seq<Option<string>>, j: nat)
    requires j < |rows| && IsTallyOf(tally, rows[..j])
    ensures IsTallyOf(if rows[j].Some? then Counted(tally, rows[j].value) else tally, rows[..j + 1])
  {
    assert rows[..j + 1] == rows[..j] + [rows[j]];
    if rows[j].Some? {
      var k := IndexOf(tally, rows[j].value);
      if k < |tally| {
        TallyBump(tally, rows[..j], rows[j].value, k);
      } else {
        TallyAppend(tally, rows[..j], rows[j].value);
      }
    } else {
      TallySkip(tally, rows[..j], rows[j]);
    }
  }

  /** `teamCounts` and `categoryCounts`: each row with a related row adds one
      to the tally of that row's name. Every name in the tally is counted
      once, with its number of rows; every related name is in the tally; rows
      without a related row are not counted at all. */
  method TallyNames(rows: seq<Option<string>>) returns (tally: Tally)
    ensures DistinctNames(tally)
    ensures forall i :: 0 <= i < |tally| ==> tally[i].1 == CountName(rows, tally[i].0) && tally[i].1 > 0
    ensures forall name :: CountName(rows, name) > 0 ==> exists i :: 0 <= i < |tally| && tally[i].0 == name
    ensures SumCounts(tally) == CountRelated(rows) <= |rows|
  {
    tally := [];
    var j := 0;
    while j < |rows|
      invariant 0 <= j <= |rows|
      invariant IsTallyOf(tally, rows[..j])
    {
      TallyStep(tally, rows, j);
      if rows[j].Some? {
        tally := Counted(tally, rows[j].value);
      }
      j := j + 1;
    }
    assert rows[..j] == rows;
  }

  // ------------------------------------------------------------ percentages

  /** `count / totalRequests * 100`, and 0 when there are no requests. */
  function Percentage(count: nat, total: nat): (p: real)
    ensures total == 0 ==> p == 0.0
    ensures count <= total ==> 0.0 <= p <= 100.0
    ensures total > 0 ==> p * (total as real) == (count as real) * 100.0
  {
    if total > 0 then (count as real) / (total as real) * 100.0 else 0.0
  }

  /** `completionRate`: the share of repaired requests, in percent, over the
      number of rows of the stage query. */
  function CompletionRate(counts: StageCounts, totalRequests: nat): (rate: real)
    ensures totalRequests == 0 ==> rate == 0.0
    ensures counts.repaired <= totalRequests ==> 0.0 <= rate <= 100.0
    ensures totalRequests > 0 ==> (rate == 100.0 <==> counts.repaired == totalRequests)
  {
    var rate := Percentage(counts.repaired, totalRequests);
    if totalRequests > 0 then
      FullShare(counts.repaired, totalRequests);
      rate
    else rate
  }

  /** A share is 100 exactly when the count is the total. */
  lemma FullShare(count: nat, total: nat)
    requires total > 0
    ensures (count as real) / (total as real) * 100.0 == 100.0 <==> count == total
  {
    var c, t := count as real, total as real;
    if c / t * 100.0 == 100.0 {
      assert c / t == 1.0;
      assert c == (c / t) * t;
    }
    if count == total {
      assert c / t == 1.0;
    }
  }

  /** Over the tally of the stage query, the completion rate is 100 exactly
      when there are requests and every one of them is repaired, and 0
      exactly when none is. */
  lemma {:induction false} CompletionRateOfTally(rows: seq<Stage>, counts: StageCounts)
    requires forall s :: counts.Get(s) == CountStage(rows, s)
    ensures 0.0 <= CompletionRate(counts, |rows|) <= 100.0
    ensures CompletionRate(counts, |rows|) == 100.0 <==> |rows| > 0 && forall i :: 0 <= i < |rows| ==> rows[i] == Repaired
    ensures CompletionRate(counts, |rows|) == 0.0 <==> forall i :: 0 <= i < |rows| ==> rows[i] != Repaired
  {
    StageCountsSum(rows);
    assert counts.repaired == CountStage(rows, Repaired);
    AllOfStage(rows, Repaired);
    NoneOfStage(rows, Repaired);
  }

  lemma {:induction false} AllOfStage(rows: seq<Stage>, s: Stage)
    ensures CountStage(rows, s) == |rows| <==> forall i :: 0 <= i < |rows| ==> rows[i] == s
  {
    if rows != [] {
      var init := rows[..|rows| - 1];
      AllOfStage(init, s);
      CountStageAtMost(init, s);
      if forall i :: 0 <= i < |rows| ==> rows[i] == s {
        assert forall i :: 0 <= i < |init| ==> init[i] == s by {
          forall i | 0 <= i < |init| ensures init[i] == s { assert init[i] == rows[i]; }
        }
      }
      if CountStage(rows, s) == |rows| {
        forall i | 0 <= i < |rows| ensures rows[i] == s {
          if i < |init| { assert init[i] == rows[i]; }
        }
      }
    }
  }

  lemma {:induction false} NoneOfStage(rows: seq<Stage>, s: Stage)
    ensures CountStage(rows, s) == 0 <==> forall i :: 0 <= i < |rows| ==> rows[i] != s
  {
    if rows != [] {
      var init := rows[..|rows| - 1];
      NoneOfStage(init, s);
      if forall i :: 0 <= i < |rows| ==> rows[i] != s {
        assert forall i :: 0 <= i < |init| ==> init[i] != s by {
          forall i | 0 <= i < |init| ensures init[i] != s { assert init[i] == rows[i]; }
        }
      }
      if CountStage(rows, s) == 0 {
        forall i | 0 <= i < |rows| ensures rows[i] != s {
          if i < |init| { assert init[i] == rows[i]; }
        }
      }
    }
  }

  lemma {:induction false} CountStageAtMost(rows: seq<Stage>, s: Stage)
    ensures CountStage(rows, s) <= |rows|
  {
    if rows != [] {
      CountStageAtMost(rows[..|rows| - 1], s);
    }
  }

  /** Three repaired requests out of ten is a rate of 30 percent. */
  lemma CompletionRateExample()
    ensures CompletionRate(StageCounts(4, 2, 3, 1), 10) == 30.0
  {
  }

  // --------------------------------------------------------------- averages

  /** A row of the repaired-requests query: stage repaired and a completion
      time present. */
  datatype RepairedRow = RepairedRow(createdAt: Timestamp, completedDate: Timestamp, durationHours: Option<real>)

  const MsPerHour: real := 3600000.0

  /** A request the repaired-requests query selects. */
  predicate IsCompletedRepair(r: MaintenanceRequest)
  {
    r.stage == Repaired && r.completedDate.Some?
  }

  function RowOf(r: MaintenanceRequest): RepairedRow
    requires r.completedDate.Some?
  {
    RepairedRow(r.createdAt, r.completedDate.value, r.durationHours)
  }

  /** `row` is the query row of some completed repair in `rs`. */
  ghost predicate RowOfSome(row: RepairedRow, rs: seq<MaintenanceRequest>)
  {
    exists r :: r in rs && IsCompletedRepair(r) && row == RowOf(r)
  }

  lemma RowOfSomeTail(rs: seq<MaintenanceRequest>)
    requires rs != []
    ensures forall row :: RowOfSome(row, rs[1..]) ==> RowOfSome(row, rs)
  {
    forall row | RowOfSome(row, rs[1..])
      ensures RowOfSome(row, rs)
    {
      var r :| r in rs[1..] && IsCompletedRepair(r) && row == RowOf(r);
      assert r in rs;
    }
  }

  /** The repaired-requests query: stage repaired and a completion time
      present, in list order. */
  function RepairedRows(rs: seq<MaintenanceRequest>): (rows: seq<RepairedRow>)
    ensures |rows| <= |rs|
    ensures forall r :: r in rs && IsCompletedRepair(r) ==> RowOf(r) in rows
    ensures forall row :: row in rows ==> RowOfSome(row, rs)
  {
    if rs == [] then []
    else
      var rest := RepairedRows(rs[1..]);
      RowOfSomeTail(rs);
      if IsCompletedRepair(rs[0]) then
        assert RowOfSome(RowOf(rs[0]), rs);
        [RowOf(rs[0])] + rest
      else rest
  }

  /** The query keeps list order and multiplicity: the rows of a
      concatenation are the rows of each part, one after the other. */
  lemma {:induction false} RepairedRowsAppend(a: seq<MaintenanceRequest>, b: seq<MaintenanceRequest>)
    ensures RepairedRows(a + b) == RepairedRows(a) + RepairedRows(b)
  {
    if a != [] {
      assert (a + b)[1..] == a[1..] + b;
      RepairedRowsAppend(a[1..], b);
    } else {
      assert a + b == b;
    }
  }

  /** A single request yields its own row when it is a completed repair, and
      no row otherwise; with `RepairedRowsAppend` this fixes the rows of any
      list, one per completed repair, in list order. */
  lemma RepairedRowsOfOne(r: MaintenanceRequest)
    ensures RepairedRows([r]) == if IsCompletedRepair(r) then [RowOf(r)] else []
  {
  }

  function Sum(xs: seq<real>): real
  {
    if xs == [] then 0.0 else Sum(xs[..|xs| - 1]) + xs[|xs| - 1]
  }

  /** A `reduce` sum divided by the number of rows, or 0 without rows. */
  function Mean(xs: seq<real>): real
  {
    if |xs| == 0 then 0.0 else Sum(xs) / (|xs| as real)
  }

  lemma {:induction false} SumBounds(xs: seq<real>, lo: real, hi: real)
    requires forall i :: 0 <= i < |xs| ==> lo <= xs[i] <= hi
    ensures (|xs| as real) * lo <= Sum(xs) <= (|xs| as real) * hi
  {
    if xs != [] {
      SumBounds(xs[..|xs| - 1], lo, hi);
    }
  }

  /** A mean lies between the smallest and the largest value. */
  lemma MeanBounds(xs: seq<real>, lo: real, hi: real)
    requires |xs| > 0
    requires forall i :: 0 <= i < |xs| ==> lo <= xs[i] <= hi
    ensures lo <= Mean(xs) <= hi
  {
    SumBounds(xs, lo, hi);
    var n := |xs| as real;
    assert Sum(xs) / n >= lo by {
      assert Sum(xs) >= n * lo;
    }
    assert Sum(xs) / n <= hi by {
      assert Sum(xs) <= n * hi;
    }
  }

  /** Hours from creation to completion of each row. */
  function CompletionHours(rows: seq<RepairedRow>): (hs: seq<real>)
    ensures |hs| == |rows|
    ensures forall i :: 0 <= i < |rows| ==>
      hs[i] * MsPerHour == (rows[i].completedDate - rows[i].createdAt) as real
  {
    seq(|rows|, i requires 0 <= i < |rows| => ((rows[i].completedDate - rows[i].createdAt) as real) / MsPerHour)
  }

  /** Work duration of each row, a missing duration counting as 0. */
  function Durations(rows: seq<RepairedRow>): (ds: seq<real>)
    ensures |ds| == |rows|
    ensures forall i :: 0 <= i < |rows| ==>
      ds[i] == if rows[i].durationHours.Some? then rows[i].durationHours.value else 0.0
  {
    seq(|rows|, i requires 0 <= i < |rows| =>
      if rows[i].durationHours.Some? then rows[i].durationHours.value else 0.0)
  }

  /** `avgCompletionTime`. */
  function AvgCompletionTime(rows: seq<RepairedRow>): (avg: real)
    ensures rows == [] ==> avg == 0.0
    ensures rows != [] ==> avg * (|rows| as real) == Sum(CompletionHours(rows))
  {
    Mean(CompletionHours(rows))
  }

  /** `avgDuration`. */
  function AvgDuration(rows: seq<RepairedRow>): (avg: real)
    ensures rows == [] ==> avg == 0.0
    ensures rows != [] ==> avg * (|rows| as real) == Sum(Durations(rows))
  {
    Mean(Durations(rows))
  }

  /** Both averages are 0 without repaired rows; otherwise each lies within
      the range of its per-row values, so completing after creation gives a
      non-negative average completion time. */
  lemma AveragesWithinRange(rows: seq<RepairedRow>, lo: real, hi: real)
    ensures rows == [] ==> AvgCompletionTime(rows) == 0.0 && AvgDuration(rows) == 0.0
    ensures rows != [] && (forall i :: 0 <= i < |rows| ==> lo <= CompletionHours(rows)[i] <= hi)
      ==> lo <= AvgCompletionTime(rows) <= hi
    ensures rows != [] && (forall i :: 0 <= i < |rows| ==> lo <= Durations(rows)[i] <= hi)
      ==> lo <= AvgDuration(rows) <= hi
  {
    if rows != [] {
      if forall i :: 0 <= i < |rows| ==> lo <= CompletionHours(rows)[i] <= hi {
        MeanBounds(CompletionHours(rows), lo, hi);
      }
      if forall i :: 0 <= i < |rows| ==> lo <= Durations(rows)[i] <= hi {
        MeanBounds(Durations(rows), lo, hi);
      }
    }
  }

  lemma {:induction false} SumNonNegative(xs: seq<real>)
    requires forall i :: 0 <= i < |xs| ==> 0.0 <= xs[i]
    ensures 0.0 <= Sum(xs)
  {
    if xs != [] {
      SumNonNegative(xs[..|xs| - 1]);
    }
  }

  lemma MeanNonNegative(xs: seq<real>)
    requires forall i :: 0 <= i < |xs| ==> 0.0 <= xs[i]
    ensures 0.0 <= Mean(xs)
  {
    SumNonNegative(xs);
    if |xs| > 0 {
      var n := |xs| as real;
      assert Sum(xs) / n >= 0.0;
    }
  }

  lemma ScaledNonNegative(h: real, d: real)
    requires h * MsPerHour == d && 0.0 <= d
    ensures 0.0 <= h
  {
  }

  /** When every repaired request was completed no earlier than it was
      created, the average completion time is not negative. */
  lemma CompletionTimeNonNegative(rs: seq<MaintenanceRequest>)
    requires forall r :: r in rs && IsCompletedRepair(r) ==> r.createdAt <= r.completedDate.value
    ensures 0.0 <= AvgCompletionTime(RepairedRows(rs))
  {
    var rows := RepairedRows(rs);
    var hs := CompletionHours(rows);
    forall i | 0 <= i < |hs|
      ensures 0.0 <= hs[i]
    {
      assert RowOfSome(rows[i], rs);
      var r :| r in rs && IsCompletedRepair(r) && rows[i] == RowOf(r);
      assert rows[i].createdAt <= rows[i].completedDate;
      ScaledNonNegative(hs[i], (rows[i].completedDate - rows[i].createdAt) as real);
    }
    MeanNonNegative(hs);
  }

  // ------------------------------------------------------------------ top 5

  predicate NonIncreasing(tally: Tally)
  {
    forall i, j :: 0 <= i < j < |tally| ==> tally[i].1 >= tally[j].1
  }

  /** Puts `e` after every entry whose count is at least its own, so equal
      counts keep their order. */
  function InsertByCount(e: (string, nat), sorted: Tally): (out: Tally)
    requires NonIncreasing(sorted)
    ensures NonIncreasing(out)
    ensures multiset(out) == multiset(sorted) + multiset{e}
    ensures |out| == |sorted| + 1
    ensures out[0] == if sorted != [] && sorted[0].1 >= e.1 then sorted[0] else e
  {
    if sorted == [] then [e]
    else if sorted[0].1 >= e.1 then
      var rest := InsertByCount(e, sorted[1..]);
      ConsSorted(sorted[0], rest);
      assert sorted == [sorted[0]] + sorted[1..];
      [sorted[0]] + rest
    else
      ConsSorted(e, sorted);
      [e] + sorted
  }

  /** An entry no smaller than the head of a sorted tally can go in front. */
  lemma ConsSorted(x: (string, nat), t: Tally)
    requires NonIncreasing(t) && (t != [] ==> t[0].1 <= x.1)
    ensures NonIncreasing([x] + t)
  {
    var out := [x] + t;
    forall i, j | 0 <= i < j < |out|
      ensures out[i].1 >= out[j].1
    {
      assert out[j] == t[j - 1];
      if i > 0 {
        assert out[i] == t[i - 1];
      } else {
        assert t[0].1 >= t[j - 1].1;
      }
    }
  }

  /** `.sort((a, b) => b[1] - a[1])`: by count, largest first, ties in the
      order they were tallied. */
  function SortByCount(tally: Tally): (sorted: Tally)
    ensures NonIncreasing(sorted)
    ensures multiset(sorted) == multiset(tally)
    ensures |sorted| == |tally|
  {
    if tally == [] then []
    else
      assert tally == tally[..|tally| - 1] + [tally[|tally| - 1]];
      InsertByCount(tally[|tally| - 1], SortByCount(tally[..|tally| - 1]))
  }

  /** `.sort(...).slice(0, 5)`: the entries the page lists. */
  function TopFive(tally: Tally): (top: Tally)
    ensures |top| == if |tally| <= 5 then |tally| else 5
    ensures top == SortByCount(tally)[..|top|]
  {
    var sorted := SortByCount(tally);
    if |sorted| <= 5 then sorted else sorted[..5]
  }

  /** The page lists at most five entries, largest first, all taken from the
      tally, all of it when it has five or fewer, and no entry left out has a
      larger count than one listed. */
  lemma TopFiveIsTop(tally: Tally)
    ensures var top := TopFive(tally);
      && |top| == (if |tally| <= 5 then |tally| else 5)
      && NonIncreasing(top)
      && multiset(top) <= multiset(tally)
      && (forall y, x :: y in tally && y !in top && x in top ==> y.1 <= x.1)
  {
    var sorted := SortByCount(tally);
    var top := TopFive(tally);
    if |sorted| > 5 {
      assert sorted == top + sorted[5..];
      forall y, x | y in tally && y !in top && x in top
        ensures y.1 <= x.1
      {
        assert y in multiset(sorted);
        var j :| 0 <= j < |sorted| && sorted[j] == y;
        var i :| 0 <= i < |top| && top[i] == x;
        assert j >= 5;
      }
    } else {
      assert top == sorted;
      forall y | y in tally
        ensures y in top
      {
        assert y in multiset(tally);
      }
    }
  }
}
