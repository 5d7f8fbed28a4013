/**
 The dashboard's vote-speed derivation: from each entity's history of
 (timestamp, cumulative votes) records, pick the four entities with the
 highest latest count, turn each one's consecutive records into
 votes-per-minute rates, and smooth those with a centred three-point moving
 average that shrinks at the two ends.

 Timestamps are whole seconds; rates and means are exact reals.
 */
module VoteSpeed {
  import opened Ranking
  import opened Optional

  /** One snapshot of an entity's cumulative count; `time` in seconds. */
  datatype Record = Record(time: int, votes: int)

  /** One entity's history, as the snapshot file stores it under its name. */
  datatype Series = Series(name: string, records: seq<Record>)

  /** What the dashboard draws for one entity: its smoothed rates at `timePoints`. */
  datatype Curve = Curve(name: string, timePoints: seq<int>, smoothed: seq<real>)

  /** The snapshot is a dictionary: no name occurs twice. */
  predicate DistinctNames(data: seq<Series>) {
    forall i, j :: 0 <= i < j < |data| ==> data[i].name != data[j].name
  }

  /** The records stored under `name`, or no records when the name is absent. */
  function Lookup(data: seq<Series>, name: string): seq<Record> {
    if data == [] then []
    else if data[0].name == name then data[0].records
    else Lookup(data[1..], name)
  }

  // ---------------------------------------------------------------------------
  // Latest counts and the top four
  // ---------------------------------------------------------------------------

  /** The latest count of every entity with at least one record, in snapshot order. */
  function LatestVotes(data: seq<Series>): seq<Entry> {
    if data == [] then []
    else
      var s := data[|data| - 1];
      LatestVotes(data[..|data| - 1])
        + (if s.records != [] then [Entry(s.name, Last(s.records).votes)] else [])
  }

  lemma {:induction false} LatestVotesConcat(a: seq<Series>, b: seq<Series>)
    ensures LatestVotes(a + b) == LatestVotes(a) + LatestVotes(b)
    decreases |b|
  {
    if b == [] {
      assert a + b == a;
    } else {
      var n := |b| - 1;
      assert (a + b)[..|a + b| - 1] == a + b[..n];
      LatestVotesConcat(a, b[..n]);
    }
  }

  /** `e` is the latest-count entry of series `s`: its name and its last record's count. */
  predicate LatestOf(e: Entry, s: Series) {
    s.records != [] && e == Entry(s.name, Last(s.records).votes)
  }

  /** Some series of `data` has `e` as its latest-count entry. */
  predicate LatestOfSome(e: Entry, data: seq<Series>) {
    exists j :: 0 <= j < |data| && LatestOf(e, data[j])
  }

  /** The positions of the entities that have at least one record. */
  function WithRecords(data: seq<Series>): set<int> {
    set j | 0 <= j < |data| && data[j].records != []
  }

  /** The latest-count table has one entry per entity with at least one record. */
  lemma {:induction false} LatestVotesCount(data: seq<Series>)
    ensures |LatestVotes(data)| == |WithRecords(data)|
  {
    if data == [] {
      assert WithRecords(data) == {};
    } else {
      var n := |data| - 1;
      LatestVotesCount(data[..n]);
      var prev := WithRecords(data[..n]);
      var added: set<int> := if data[n].records != [] then {n} else {};
      forall j ensures j in WithRecords(data) <==> j in prev + added {
        if 0 <= j < n {
          assert data[..n][j] == data[j];
        }
      }
      assert WithRecords(data) == prev + added;
      assert n !in prev;
    }
  }

  /** Four names are shown, or as many as there are entities with records when fewer. */
  lemma Top4NamesCount(data: seq<Series>)
    ensures |Top4Names(data)| == if |WithRecords(data)| < 4 then |WithRecords(data)| else 4
  {
    LatestVotesCount(data);
    TopSelects(LatestVotes(data), 4);
  }

  /**
   The latest-count table has an entry for exactly the entities with at least
   one record, one entry each, holding the count of that entity's last record.
   */
  lemma {:induction false} LatestVotesKeys(data: seq<Series>)
    ensures |LatestVotes(data)| == |WithRecords(data)|
    ensures forall k :: 0 <= k < |LatestVotes(data)| ==> LatestOfSome(LatestVotes(data)[k], data)
    ensures forall j :: 0 <= j < |data| && data[j].records != [] ==>
      Entry(data[j].name, Last(data[j].records).votes) in LatestVotes(data)
  {
    LatestVotesCount(data);
    if data != [] {
      var n := |data| - 1;
      var r := LatestVotes(data);
      LatestVotesKeys(data[..n]);
      var prev := LatestVotes(data[..n]);
      assert r[..|prev|] == prev;
      forall k | 0 <= k < |r| ensures LatestOfSome(r[k], data) {
        if k < |prev| {
          assert r[k] == prev[k];
          assert LatestOfSome(prev[k], data[..n]);
          var j :| 0 <= j < n && LatestOf(prev[k], data[..n][j]);
          assert data[j] == data[..n][j];
        } else {
          assert data[n].records != [] && r == prev + [Entry(data[n].name, Last(data[n].records).votes)];
          assert LatestOf(r[k], data[n]);
        }
      }
      forall j | 0 <= j < |data| && data[j].records != [] ensures Entry(data[j].name, Last(data[j].records).votes) in r {
        if j < n {
          assert data[..n][j] == data[j];
        }
      }
    }
  }

  lemma {:induction false} LookupFinds(data: seq<Series>, j: nat)
    requires DistinctNames(data) && j < |data|
    ensures Lookup(data, data[j].name) == data[j].records
  {
    if j > 0 {
      assert data[0].name != data[j].name;
      assert data[1..][j - 1] == data[j];
      LookupFinds(data[1..], j - 1);
    }
  }

  /** The names of the four entities with the highest latest count, highest first. */
  function Top4Names(data: seq<Series>): seq<string> {
    Names(Top(LatestVotes(data), 4))
  }

  /**
   At most four names (fewer only when fewer entities have records), each of
   an entity with records, listed by non-increasing latest count; no entity
   left out has a larger latest count than one listed.
   */
  lemma Top4NamesSelects(data: seq<Series>)
    requires DistinctNames(data)
    ensures |Top4Names(data)| == if |LatestVotes(data)| < 4 then |LatestVotes(data)| else 4
    ensures forall k :: 0 <= k < |Top4Names(data)| ==>
      Lookup(data, Top4Names(data)[k]) != []
      && Top(LatestVotes(data), 4)[k].votes == Last(Lookup(data, Top4Names(data)[k])).votes
    ensures NonIncreasing(Top(LatestVotes(data), 4))
    ensures forall v :: WithVotes(Top(LatestVotes(data), 4), v) <= WithVotes(LatestVotes(data), v)
    ensures forall x, y :: x in multiset(LatestVotes(data)) - multiset(Top(LatestVotes(data), 4)) && y in Top(LatestVotes(data), 4) ==>
      x.votes <= y.votes
  {
    var latest := LatestVotes(data);
    var top := Top(latest, 4);
    TopSelects(latest, 4);
    forall k | 0 <= k < |top|
      ensures Lookup(data, top[k].name) != [] && top[k].votes == Last(Lookup(data, top[k].name)).votes
    {
      assert top[k] in multiset(top);
      TopEntryIsLatest(data, top[k]);
    }
  }

  lemma TopEntryIsLatest(data: seq<Series>, e: Entry)
    requires DistinctNames(data)
    requires e in multiset(Top(LatestVotes(data), 4))
    ensures Lookup(data, e.name) != [] && e.votes == Last(Lookup(data, e.name)).votes
  {
    var latest := LatestVotes(data);
    TopSelects(latest, 4);
    LatestVotesKeys(data);
    assert e in multiset(latest);
    var i :| 0 <= i < |latest| && latest[i] == e;
    assert LatestOfSome(latest[i], data);
    var j :| 0 <= j < |data| && LatestOf(latest[i], data[j]);
    LookupFinds(data, j);
  }

  function Last(records: seq<Record>): Record
    requires records != []
  {
    records[|records| - 1]
  }

  // ---------------------------------------------------------------------------
  // Votes per minute
  // ---------------------------------------------------------------------------

  /**
   The rate between two consecutive records: the vote difference divided by
   the elapsed minutes (elapsed seconds over 60), and 0 when no time elapsed
   or the clock went backwards. Decreasing counts are not clamped.
   */
  function Speed(prev: Record, cur: Record): real {
    var deltaMin := (cur.time - prev.time) as real / 60.0;
    var voteDiff := cur.votes - prev.votes;
    if deltaMin > 0.0 then voteDiff as real / deltaMin else 0.0
  }

  /** The rates between every pair of consecutive records, in order. */
  function Speeds(records: seq<Record>): seq<real> {
    if |records| < 2 then []
    else Speeds(records[..|records| - 1]) + [Speed(records[|records| - 2], records[|records| - 1])]
  }

  /** Every timestamp but the first: the one each rate is plotted at, the end of its interval. */
  function TimePoints(records: seq<Record>): (r: seq<int>)
    ensures |r| == if records == [] then 0 else |records| - 1
    ensures forall k :: 0 <= k < |r| ==> r[k] == records[k + 1].time
  {
    if records == [] then [] else seq(|records| - 1, k requires 0 <= k < |records| - 1 => records[k + 1].time)
  }

  /** One rate per consecutive pair, the k-th between records k and k + 1. */
  lemma {:induction false} SpeedsAligned(records: seq<Record>)
    ensures |Speeds(records)| == if records == [] then 0 else |records| - 1
    ensures forall k :: 0 <= k < |Speeds(records)| ==> Speeds(records)[k] == Speed(records[k], records[k + 1])
  {
    if |records| >= 2 {
      var n := |records| - 1;
      SpeedsAligned(records[..n]);
      assert forall k :: 0 <= k < n ==> records[..n][k] == records[k];
    }
  }

  /** With time elapsed, the rate is the vote difference times 60 over the elapsed seconds. */
  lemma SpeedWithElapsedTime(prev: Record, cur: Record)
    requires cur.time > prev.time
    ensures Speed(prev, cur) == (cur.votes - prev.votes) as real * 60.0 / (cur.time - prev.time) as real
  {
  }

  /** Without elapsed time (a repeated or out-of-order timestamp) the rate is exactly 0. */
  lemma SpeedWithoutElapsedTime(prev: Record, cur: Record)
    requires cur.time <= prev.time
    ensures Speed(prev, cur) == 0.0
  {
  }

  /** Decreases are not clamped: with time elapsed the rate has the sign of the vote difference. */
  lemma SpeedSign(prev: Record, cur: Record)
    requires cur.time > prev.time
    ensures Speed(prev, cur) < 0.0 <==> cur.votes < prev.votes
    ensures Speed(prev, cur) == 0.0 <==> cur.votes == prev.votes
    ensures Speed(prev, cur) > 0.0 <==> cur.votes > prev.votes
  {
  }

  /** The speed loop: one rate appended per consecutive pair of records. */
  method ComputeSpeeds(records: seq<Record>) returns (speeds: seq<real>)
    ensures speeds == Speeds(records)
    ensures |speeds| == if records == [] then 0 else |records| - 1
    ensures forall k :: 0 <= k < |speeds| ==> speeds[k] == Speed(records[k], records[k + 1])
  {
    speeds := [];
    var i := 1;
    while i < |records|
      invariant 1 <= i && (records == [] || i <= |records|)
      invariant speeds == Speeds(if records == [] then [] else records[..i])
    {
      var deltaMin := (records[i].time - records[i - 1].time) as real / 60.0;
      var voteDiff := records[i].votes - records[i - 1].votes;
      var speed := if deltaMin > 0.0 then voteDiff as real / deltaMin else 0.0;
      assert records[..i + 1][..i] == records[..i];
      speeds := speeds + [speed];
      i := i + 1;
    }
    assert records == [] || records[..|records|] == records;
    SpeedsAligned(records);
  }

  // ---------------------------------------------------------------------------
  // Centred moving average, window 3, at least one value per window
  // ---------------------------------------------------------------------------

  function Sum(s: seq<real>): real {
    if s == [] then 0.0 else s[0] + Sum(s[1..])
  }

  function Mean(s: seq<real>): real
    requires s != []
  {
    Sum(s) / |s| as real
  }

  /** The values the centred window of width 3 at position i covers, cut off at both ends. */
  function Window(s: seq<real>, i: nat): (w: seq<real>)
    requires i < |s|
    ensures 1 <= |w| <= 3 && s[i] in w
  {
    var lo := if i >= 1 then i - 1 else 0;
    var hi := if i + 2 <= |s| then i + 2 else |s|;
    assert s[lo..hi][i - lo] == s[i];
    s[lo..hi]
  }

  /**
   The centred moving average over three positions, cut off at both ends, with
   a value wherever at least one rate falls in the window.
   */
  function RollingMean(s: seq<real>): (r: seq<real>)
    ensures |r| == |s|
  {
    seq(|s|, i requires 0 <= i < |s| => Mean(Window(s, i)))
  }

  /**
   The moving average spelled out: the mean of a value and its neighbours in
   the interior, of two values at either end, and the value itself in a
   series of one.
   */
  lemma RollingMeanValues(s: seq<real>)
    ensures |s| == 1 ==> RollingMean(s) == s
    ensures |s| >= 2 ==> RollingMean(s)[0] == (s[0] + s[1]) / 2.0
    ensures |s| >= 2 ==> RollingMean(s)[|s| - 1] == (s[|s| - 2] + s[|s| - 1]) / 2.0
    ensures forall i :: 0 < i < |s| - 1 ==> RollingMean(s)[i] == (s[i - 1] + s[i] + s[i + 1]) / 3.0
  {
    if |s| == 1 {
      RollingMeanSingle(s);
    }
    if |s| >= 2 {
      RollingMeanEnds(s);
    }
    forall i | 0 < i < |s| - 1 ensures RollingMean(s)[i] == (s[i - 1] + s[i] + s[i + 1]) / 3.0 {
      RollingMeanInterior(s, i);
    }
  }

  lemma RollingMeanSingle(s: seq<real>)
    requires |s| == 1
    ensures RollingMean(s) == s
  {
    assert Window(s, 0) == s;
    assert Sum(s) == s[0] + Sum(s[1..]);
  }

  lemma RollingMeanEnds(s: seq<real>)
    requires |s| >= 2
    ensures RollingMean(s)[0] == (s[0] + s[1]) / 2.0
    ensures RollingMean(s)[|s| - 1] == (s[|s| - 2] + s[|s| - 1]) / 2.0
  {
    var n := |s|;
    assert Window(s, 0) == s[0..2];
    SumOfTwo(s[0..2]);
    assert Window(s, n - 1) == s[n - 2..n];
    SumOfTwo(s[n - 2..n]);
  }

  lemma RollingMeanInterior(s: seq<real>, i: nat)
    requires 0 < i < |s| - 1
    ensures RollingMean(s)[i] == (s[i - 1] + s[i] + s[i + 1]) / 3.0
  {
    var w := s[i - 1..i + 2];
    assert Window(s, i) == w;
    SumOfThree(w);
  }

  lemma SumOfTwo(w: seq<real>)
    requires |w| == 2
    ensures Sum(w) == w[0] + w[1]
  {
    assert Sum(w[1..]) == w[1..][0] + Sum(w[1..][1..]);
    assert w[1..][1..] == [];
  }

  lemma SumOfThree(w: seq<real>)
    requires |w| == 3
    ensures Sum(w) == w[0] + w[1] + w[2]
  {
    SumOfTwo(w[1..]);
  }

  lemma {:induction false} SumBounded(s: seq<real>, lo: real, hi: real)
    requires forall i :: 0 <= i < |s| ==> lo <= s[i] <= hi
    ensures |s| as real * lo <= Sum(s) <= |s| as real * hi
  {
    if s != [] {
      SumBounded(s[1..], lo, hi);
      assert |s| as real * lo == lo + (|s| - 1) as real * lo;
      assert |s| as real * hi == hi + (|s| - 1) as real * hi;
    }
  }

  /** A mean lies within any bounds on the values it averages. */
  lemma MeanBounded(s: seq<real>, lo: real, hi: real)
    requires s != []
    requires forall i :: 0 <= i < |s| ==> lo <= s[i] <= hi
    ensures lo <= Mean(s) <= hi
  {
    SumBounded(s, lo, hi);
    var n := |s| as real;
    assert lo * n <= Sum(s) <= hi * n;
    assert Mean(s) * n == Sum(s);
  }

  function Min(s: seq<real>): (m: real)
    requires s != []
    ensures m in s && forall i :: 0 <= i < |s| ==> m <= s[i]
  {
    if |s| == 1 then s[0]
    else
      var m := Min(s[1..]);
      assert forall i :: 1 <= i < |s| ==> s[i] == s[1..][i - 1];
      if s[0] <= m then s[0] else m
  }

  function Max(s: seq<real>): (m: real)
    requires s != []
    ensures m in s && forall i :: 0 <= i < |s| ==> s[i] <= m
  {
    if |s| == 1 then s[0]
    else
      var m := Max(s[1..]);
      assert forall i :: 1 <= i < |s| ==> s[i] == s[1..][i - 1];
      if s[0] >= m then s[0] else m
  }

  /** Every smoothed value lies between the least and the greatest rate of its window. */
  lemma RollingMeanWithinWindow(s: seq<real>)
    ensures forall i :: 0 <= i < |s| ==> Min(Window(s, i)) <= RollingMean(s)[i] <= Max(Window(s, i))
  {
    forall i | 0 <= i < |s| ensures Min(Window(s, i)) <= RollingMean(s)[i] <= Max(Window(s, i)) {
      var w := Window(s, i);
      MeanBounded(w, Min(w), Max(w));
    }
  }

  /** A constant rate series is left as it is. */
  lemma RollingMeanConstant(s: seq<real>, c: real)
    requires forall i :: 0 <= i < |s| ==> s[i] == c
    ensures RollingMean(s) == s
  {
    forall i | 0 <= i < |s| ensures RollingMean(s)[i] == s[i] {
      var w := Window(s, i);
      assert forall k :: 0 <= k < |w| ==> w[k] in s;
      MeanBounded(w, c, c);
    }
  }

  /** Non-negative rates smooth to non-negative values. */
  lemma RollingMeanNonNegative(s: seq<real>)
    requires forall i :: 0 <= i < |s| ==> s[i] >= 0.0
    ensures forall i :: 0 <= i < |s| ==> RollingMean(s)[i] >= 0.0
  {
    forall i | 0 <= i < |s| ensures RollingMean(s)[i] >= 0.0 {
      var w := Window(s, i);
      assert forall k :: 0 <= k < |w| ==> w[k] in s;
      MeanBounded(w, 0.0, Max(w));
    }
  }

  // ---------------------------------------------------------------------------
  // One curve per top entity
  // ---------------------------------------------------------------------------

  /** The curve drawn for `name`, or none when it has fewer than two records. */
  function CurveOf(name: string, records: seq<Record>): Option<Curve> {
    if |records| < 2 then None
    else Some(Curve(name, TimePoints(records), RollingMean(Speeds(records))))
  }

  /** The curves drawn for `names`, in order, skipping entities without two records. */
  function Curves(data: seq<Series>, names: seq<string>): seq<Curve> {
    if names == [] then []
    else
      var name := names[|names| - 1];
      Curves(data, names[..|names| - 1])
        + match CurveOf(name, Lookup(data, name)) case None => [] case Some(c) => [c]
  }

  /**
   Each drawn curve belongs to a listed name with at least two records, pairs
   the k-th smoothed rate with the timestamp of record k + 1, and has one
   value per consecutive pair of records; every listed name with at least two
   records gets its curve.
   */
  lemma {:induction false} CurvesShape(data: seq<Series>, names: seq<string>)
    ensures |Curves(data, names)| <= |names|
    ensures forall c :: c in Curves(data, names) ==>
      c.name in names && |Lookup(data, c.name)| >= 2
      && |c.timePoints| == |c.smoothed| == |Lookup(data, c.name)| - 1
      && (forall k :: 0 <= k < |c.timePoints| ==> c.timePoints[k] == Lookup(data, c.name)[k + 1].time)
      && c.smoothed == RollingMean(Speeds(Lookup(data, c.name)))
    ensures forall name :: name in names && |Lookup(data, name)| >= 2 ==>
      CurveOf(name, Lookup(data, name)).value in Curves(data, names)
  {
    if names != [] {
      var n := |names| - 1;
      CurvesShape(data, names[..n]);
      assert names == names[..n] + [names[n]];
      var records := Lookup(data, names[n]);
      if |records| >= 2 {
        SpeedsAligned(records);
      }
    }
  }

  /**
   The drawing loop: for every top name, skip it when it has fewer than two
   records, else compute its rates, their timestamps and the smoothed rates.
   */
  method PlotSpeeds(data: seq<Series>, names: seq<string>) returns (curves: seq<Curve>)
    ensures curves == Curves(data, names)
  {
    curves := [];
    for i := 0 to |names|
      invariant curves == Curves(data, names[..i])
    {
      assert names[..i + 1][..i] == names[..i];
      var name := names[i];
      var records := Lookup(data, name);
      if |records| < 2 {
        continue;
      }
      var speeds := ComputeSpeeds(records);
      var timePoints := TimePoints(records);
      var smoothed := RollingMean(speeds);
      curves := curves + [Curve(name, timePoints, smoothed)];
    }
    assert names[..|names|] == names;
  }

  /**
   The dashboard as a whole: the curves drawn for the top four entities, in
   ranking order. At most four are drawn, each for a top-four entity with at
   least two records, and every such entity gets its curve.
   */
  method Dashboard(data: seq<Series>) returns (curves: seq<Curve>)
    ensures curves == Curves(data, Top4Names(data))
    ensures |curves| <= 4
    ensures forall c :: c in curves ==>
      c.name in Top4Names(data) && |Lookup(data, c.name)| >= 2
      && |c.timePoints| == |c.smoothed| == |Lookup(data, c.name)| - 1
      && (forall k :: 0 <= k < |c.timePoints| ==> c.timePoints[k] == Lookup(data, c.name)[k + 1].time)
      && c.smoothed == RollingMean(Speeds(Lookup(data, c.name)))
    ensures forall name :: name in Top4Names(data) && |Lookup(data, name)| >= 2 ==>
      CurveOf(name, Lookup(data, name)).value in curves
  {
    var names := Top4Names(data);
    curves := PlotSpeeds(data, names);
    CurvesShape(data, names);
    TopSelects(LatestVotes(data), 4);
  }

  // ---------------------------------------------------------------------------
  // Examples
  // ---------------------------------------------------------------------------

  /**
   A repeated timestamp is not removed: it yields a rate of 0 between the two
   copies, so three rates come out of four records.
   */
  lemma RepeatedTimestampExample()
    ensures Speeds([Record(0, 100), Record(60, 110), Record(60, 110), Record(120, 125)]) == [10.0, 0.0, 15.0]
  {
    var r := [Record(0, 100), Record(60, 110), Record(60, 110), Record(120, 125)];
    SpeedsAligned(r);
    SpeedWithElapsedTime(r[0], r[1]);
    SpeedWithElapsedTime(r[2], r[3]);
  }
}
