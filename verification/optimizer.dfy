/** Right-sizing: every metrics column is converted to canonical numbers,
    then each current container is matched with its history, its CPU and
    memory usage are forecast one hour ahead, and a smaller request and limit
    are suggested for a resource whose forecast sits well below its limit.

    Rows are records of canonical numbers (cores for CPU, MiB for memory);
    the raw rows hold the field values as they arrive. */
module OptimizationEngine {
  import Q = QuantityCodec
  import F = UsageForecaster

  datatype Resource = Cpu | Memory

  /** One container's metrics, in canonical units. */
  datatype Container = Container(
    pod: string, namespace: string, name: string,
    cpuRequest: real, cpuLimit: real, memoryRequest: real, memoryLimit: real,
    cpuUsage: real, memoryUsage: real)

  /** A container's metrics as observed at one moment. */
  datatype Sample = Sample(metrics: Container, timestamp: real)

  /** A metrics row before its quantities are converted. */
  datatype RawContainer = RawContainer(
    pod: string, namespace: string, name: string,
    cpuRequest: Q.RawValue, cpuLimit: Q.RawValue, memoryRequest: Q.RawValue, memoryLimit: Q.RawValue,
    cpuUsage: Q.RawValue, memoryUsage: Q.RawValue)

  datatype RawSample = RawSample(metrics: RawContainer, timestamp: real)

  /** One suggestion: the current request and limit of a resource, the
      forecast that motivated it, and the smaller request and limit. */
  datatype Recommendation = Recommendation(
    pod: string, container: string, resource: Resource,
    currentRequest: real, currentLimit: real, predicted: real,
    suggestedRequest: real, suggestedLimit: real)

  /* ---------------- columns and conversion ---------------- */

  /** The quantity columns, in the order they are converted. */
  datatype Column = CpuRequest | CpuLimit | MemoryRequest | MemoryLimit | CpuUsage | MemoryUsage

  const Columns: seq<Column> := [CpuRequest, CpuLimit, MemoryRequest, MemoryLimit, CpuUsage, MemoryUsage]

  function RawField(r: RawContainer, col: Column): Q.RawValue
  {
    match col
    case CpuRequest => r.cpuRequest
    case CpuLimit => r.cpuLimit
    case MemoryRequest => r.memoryRequest
    case MemoryLimit => r.memoryLimit
    case CpuUsage => r.cpuUsage
    case MemoryUsage => r.memoryUsage
  }

  function Field(c: Container, col: Column): real
  {
    match col
    case CpuRequest => c.cpuRequest
    case CpuLimit => c.cpuLimit
    case MemoryRequest => c.memoryRequest
    case MemoryLimit => c.memoryLimit
    case CpuUsage => c.cpuUsage
    case MemoryUsage => c.memoryUsage
  }

  predicate Parses(r: RawContainer, col: Column)
  {
    Q.Parse(RawField(r, col)).Ok?
  }

  predicate RowParses(r: RawContainer)
  {
    forall col: Column :: Parses(r, col)
  }

  /** The row with every quantity converted. */
  function ParseRow(r: RawContainer): (c: Container)
    requires RowParses(r)
    ensures c.pod == r.pod && c.namespace == r.namespace && c.name == r.name
    ensures forall col: Column :: Field(c, col) == Value(r, col)
  {
    var c := Container(r.pod, r.namespace, r.name,
      Value(r, CpuRequest), Value(r, CpuLimit), Value(r, MemoryRequest), Value(r, MemoryLimit),
      Value(r, CpuUsage), Value(r, MemoryUsage));
    c
  }

  /** The converted value of one column of a row. */
  function Value(r: RawContainer, col: Column): (x: real)
    requires RowParses(r)
    ensures Q.Parse(RawField(r, col)) == Q.Ok(x)
  {
    assert Parses(r, col);
    Q.Parse(RawField(r, col)).value
  }

  /** The error of the first row, in row order, whose `col` does not convert. */
  function ColumnError(rows: seq<RawContainer>, col: Column): (r: Q.Option<Q.ParseError>)
    ensures r.None? <==> forall i | 0 <= i < |rows| :: Parses(rows[i], col)
    ensures r.Some? ==> exists i | 0 <= i < |rows| ::
      Q.Parse(RawField(rows[i], col)) == Q.Err(r.value)
      && forall j | 0 <= j < i :: Parses(rows[j], col)
  {
    if rows == [] then Q.None
    else match Q.Parse(RawField(rows[0], col))
      case Err(e) => Q.Some(e)
      case Ok(_) =>
        var rest := ColumnError(rows[1..], col);
        assert forall i | 1 <= i < |rows| :: rows[i] == rows[1..][i - 1];
        if rest.Some? then
          var k :| 0 <= k < |rows[1..]| && Q.Parse(RawField(rows[1..][k], col)) == Q.Err(rest.value)
            && forall j | 0 <= j < k :: Parses(rows[1..][j], col);
          assert Q.Parse(RawField(rows[k + 1], col)) == Q.Err(rest.value);
          rest
        else rest
  }

  function HistoryRows(history: seq<RawSample>): (rows: seq<RawContainer>)
    ensures |rows| == |history|
    ensures forall i | 0 <= i < |history| :: rows[i] == history[i].metrics
  {
    seq(|history|, i requires 0 <= i < |history| => history[i].metrics)
  }

  /** The first conversion error, column by column in `cols` order: within a
      column, every current row before any history row. */
  function FrameError(current: seq<RawContainer>, history: seq<RawContainer>, cols: seq<Column>): (r: Q.Option<Q.ParseError>)
    ensures r.None? <==> forall k | 0 <= k < |cols| ::
      (forall i | 0 <= i < |current| :: Parses(current[i], cols[k]))
      && (forall i | 0 <= i < |history| :: Parses(history[i], cols[k]))
  {
    if cols == [] then Q.None
    else match ColumnError(current, cols[0])
      case Some(e) => Q.Some(e)
      case None =>
        match ColumnError(history, cols[0])
        case Some(e) => Q.Some(e)
        case None =>
          var rest := FrameError(current, history, cols[1..]);
          assert forall k | 1 <= k < |cols| :: cols[k] == cols[1..][k - 1];
          rest
  }

  function ParseRows(rows: seq<RawContainer>): (cs: seq<Container>)
    requires forall i | 0 <= i < |rows| :: RowParses(rows[i])
    ensures |cs| == |rows|
    ensures forall i | 0 <= i < |rows| :: cs[i] == ParseRow(rows[i])
  {
    seq(|rows|, i requires 0 <= i < |rows| && RowParses(rows[i]) => ParseRow(rows[i]))
  }

  function ParseSamples(history: seq<RawSample>): (ss: seq<Sample>)
    requires forall i | 0 <= i < |history| :: RowParses(history[i].metrics)
    ensures |ss| == |history|
    ensures forall i | 0 <= i < |history| ::
      ss[i].metrics == ParseRow(history[i].metrics) && ss[i].timestamp == history[i].timestamp
  {
    seq(|history|, i requires 0 <= i < |history| && RowParses(history[i].metrics) =>
      Sample(ParseRow(history[i].metrics), history[i].timestamp))
  }

  lemma AllColumns(col: Column)
    ensures col in Columns
  {
  }

  /** Converts every quantity column of both frames, or reports the first
      value that does not convert. */
  function ParseFrames(current: seq<RawContainer>, history: seq<RawSample>): (r: Q.Result<(seq<Container>, seq<Sample>)>)
    ensures r.Ok? <==> (forall i | 0 <= i < |current| :: RowParses(current[i]))
                       && (forall i | 0 <= i < |history| :: RowParses(history[i].metrics))
    ensures r.Ok? ==> |r.value.0| == |current| && |r.value.1| == |history|
    ensures r.Ok? ==> forall i | 0 <= i < |current| ::
      RowParses(current[i]) && r.value.0[i] == ParseRow(current[i])
    ensures r.Ok? ==> forall i | 0 <= i < |history| ::
      RowParses(history[i].metrics) && r.value.1[i] == Sample(ParseRow(history[i].metrics), history[i].timestamp)
  {
    var rows := HistoryRows(history);
    match FrameError(current, rows, Columns)
    case Some(e) =>
      assert !(forall i | 0 <= i < |current| :: RowParses(current[i]))
          || !(forall i | 0 <= i < |history| :: RowParses(history[i].metrics)) by {
        var k :| 0 <= k < |Columns| && !((forall i | 0 <= i < |current| :: Parses(current[i], Columns[k]))
          && (forall i | 0 <= i < |rows| :: Parses(rows[i], Columns[k])));
      }
      Q.Err(e)
    case None =>
      assert forall i | 0 <= i < |current| :: RowParses(current[i]) by {
        forall i, col: Column | 0 <= i < |current|
          ensures Parses(current[i], col)
        {
          AllColumns(col);
          var k :| 0 <= k < |Columns| && Columns[k] == col;
        }
      }
      assert forall i | 0 <= i < |history| :: RowParses(history[i].metrics) by {
        forall i, col: Column | 0 <= i < |history|
          ensures Parses(history[i].metrics, col)
        {
          AllColumns(col);
          var k :| 0 <= k < |Columns| && Columns[k] == col;
          assert rows[i] == history[i].metrics;
        }
      }
      Q.Ok((ParseRows(current), ParseSamples(history)))
  }

  /* ---------------- history, forecast, thresholds ---------------- */

  /** History rows belong to a container when pod and container name agree;
      the namespace plays no part. */
  predicate SameContainer(s: Sample, c: Container)
  {
    s.metrics.pod == c.pod && s.metrics.name == c.name
  }

  /** The container's history, in its original order. */
  function SelectHistory(history: seq<Sample>, c: Container): (r: seq<Sample>)
    ensures |r| <= |history|
    ensures forall i | 0 <= i < |r| :: SameContainer(r[i], c)
  {
    if history == [] then []
    else if SameContainer(history[0], c) then [history[0]] + SelectHistory(history[1..], c)
    else SelectHistory(history[1..], c)
  }

  function Usage(c: Container, kind: Resource): real
  {
    match kind
    case Cpu => c.cpuUsage
    case Memory => c.memoryUsage
  }

  function Limit(c: Container, kind: Resource): real
  {
    match kind
    case Cpu => c.cpuLimit
    case Memory => c.memoryLimit
  }

  function Request(c: Container, kind: Resource): real
  {
    match kind
    case Cpu => c.cpuRequest
    case Memory => c.memoryRequest
  }

  /** The usage of `kind` over time. */
  function UsagePoints(history: seq<Sample>, kind: Resource): (ps: seq<F.Point>)
    ensures |ps| == |history|
    ensures forall i | 0 <= i < |history| ::
      ps[i] == F.Point(history[i].timestamp, Usage(history[i].metrics, kind))
  {
    seq(|history|, i requires 0 <= i < |history| => F.Point(history[i].timestamp, Usage(history[i].metrics, kind)))
  }

  function Forecast(history: seq<Sample>, kind: Resource): real
    requires history != []
  {
    F.PredictFutureUsage(UsagePoints(history, kind))
  }

  /** Below this fraction of the limit a forecast is low enough to act on. */
  function Threshold(kind: Resource): real
  {
    match kind
    case Cpu => 0.5
    case Memory => 0.7
  }

  /** The smallest request ever suggested: 10 millicores, 10 MiB. */
  function Floor(kind: Resource): real
  {
    match kind
    case Cpu => 0.01
    case Memory => 10.0
  }

  /** A positive limit turns the comparison of the ratio with a threshold
      into a comparison of the forecast with a fraction of the limit. */
  lemma RatioBelow(p: real, limit: real, t: real)
    requires limit > 0.0
    ensures p / limit < t <==> p < t * limit
  {
    assert p == (p / limit) * limit;
    if p / limit < t {
      assert (p / limit) * limit < t * limit;
    } else {
      assert (p / limit) * limit >= t * limit;
    }
  }

  /** The sizing rule of every suggestion: the request is the larger of the
      forecast with 20% head-room and the floor, and the limit is 1.5 times
      the request. */
  predicate WellSized(r: Recommendation)
  {
    && r.suggestedRequest >= Floor(r.resource)
    && r.suggestedRequest >= 1.2 * r.predicted
    && (r.suggestedRequest == Floor(r.resource) || r.suggestedRequest == 1.2 * r.predicted)
    && r.suggestedLimit == 1.5 * r.suggestedRequest
  }

  /** What every emitted suggestion satisfies: a positive current limit, a
      forecast below the threshold fraction of it, and the sizing rule. */
  predicate Justified(r: Recommendation)
  {
    && r.currentLimit > 0.0
    && r.predicted < Threshold(r.resource) * r.currentLimit
    && WellSized(r)
  }

  /** The suggestion for one resource of one container, given its forecast. */
  function Suggest(c: Container, kind: Resource, predicted: real): (r: Q.Option<Recommendation>)
    ensures r.Some? <==> Limit(c, kind) > 0.0 && predicted < Threshold(kind) * Limit(c, kind)
    ensures r.Some? ==>
      && r.value.pod == c.pod && r.value.container == c.name && r.value.resource == kind
      && r.value.currentRequest == Request(c, kind) && r.value.currentLimit == Limit(c, kind)
      && r.value.predicted == predicted
    ensures r.Some? ==> WellSized(r.value)
  {
    var limit := Limit(c, kind);
    if limit > 0.0 then
      var ratio := predicted / limit;
      RatioBelow(predicted, limit, Threshold(kind));
      if ratio < Threshold(kind) then
        var buffered := predicted * 1.2;
        var request := if buffered >= Floor(kind) then buffered else Floor(kind);
        Q.Some(Recommendation(c.pod, c.name, kind, Request(c, kind), limit, predicted,
                              request, request * 1.5))
      else Q.None
    else Q.None
  }

  function Present(o: Q.Option<Recommendation>): (rs: seq<Recommendation>)
    ensures o.Some? ==> rs == [o.value]
    ensures o.None? ==> rs == []
  {
    match o
    case Some(x) => [x]
    case None => []
  }

  /** The suggestions for one container: nothing without history, otherwise
      CPU (if any) before memory (if any). */
  function ContainerRecommendations(c: Container, history: seq<Sample>): (rs: seq<Recommendation>)
    ensures |rs| <= 2
    ensures SelectHistory(history, c) == [] ==> rs == []
    ensures forall i | 0 <= i < |rs| ::
      FromContainer(rs[i], c) && Justified(rs[i])
    ensures forall i, j | 0 <= i < j < |rs| :: rs[i].resource == Cpu && rs[j].resource == Memory
  {
    var h := SelectHistory(history, c);
    if h == [] then []
    else Present(Suggest(c, Cpu, Forecast(h, Cpu))) + Present(Suggest(c, Memory, Forecast(h, Memory)))
  }

  /** A suggestion names container `c` and carries its current request and limit. */
  predicate FromContainer(r: Recommendation, c: Container)
  {
    && r.pod == c.pod && r.container == c.name
    && r.currentRequest == Request(c, r.resource) && r.currentLimit == Limit(c, r.resource)
  }

  /** A suggestion comes from one of the containers. */
  predicate TracedTo(r: Recommendation, current: seq<Container>)
  {
    exists i | 0 <= i < |current| :: FromContainer(r, current[i])
  }

  /** The suggestions for every current container, in container order. */
  function Recommend(current: seq<Container>, history: seq<Sample>): (rs: seq<Recommendation>)
    ensures |rs| <= 2 * |current|
    ensures forall k | 0 <= k < |rs| :: TracedTo(rs[k], current)
    ensures forall k | 0 <= k < |rs| :: Justified(rs[k])
  {
    if current == [] then []
    else
      var head := ContainerRecommendations(current[0], history);
      var tail := Recommend(current[1..], history);
      assert forall k | 0 <= k < |head| :: TracedTo(head[k], current) by {
        forall k | 0 <= k < |head| ensures TracedTo(head[k], current) {
          assert FromContainer(head[k], current[0]);
        }
      }
      assert forall k | 0 <= k < |tail| :: TracedTo(tail[k], current) by {
        forall k | 0 <= k < |tail| ensures TracedTo(tail[k], current) {
          var i :| 0 <= i < |current[1..]| && FromContainer(tail[k], current[1..][i]);
          assert current[1..][i] == current[i + 1];
        }
      }
      head + tail
  }

  /** The whole pipeline: convert both frames, then recommend. */
  function OptimizeResources(current: seq<RawContainer>, history: seq<RawSample>): (r: Q.Result<seq<Recommendation>>)
    ensures r.Ok? <==> (forall i | 0 <= i < |current| :: RowParses(current[i]))
                       && (forall i | 0 <= i < |history| :: RowParses(history[i].metrics))
    ensures r.Ok? ==> ParseFrames(current, history).Ok?
    ensures r.Ok? ==> r.value == Recommend(ParseFrames(current, history).value.0, ParseFrames(current, history).value.1)
    ensures r.Ok? ==> |r.value| <= 2 * |current|
    ensures r.Ok? ==> forall k | 0 <= k < |r.value| :: Justified(r.value[k])
    ensures r.Err? ==> Q.Some(r.error) == FirstError(ConversionOrder(current, HistoryRows(history), Columns))
  {
    ParseFramesReportsFirstError(current, history);
    match ParseFrames(current, history)
    case Err(e) => Q.Err(e)
    case Ok((cs, hs)) => Q.Ok(Recommend(cs, hs))
  }

  /* ---------------- conversion order ---------------- */

  /** The values of one column, row by row. */
  function ColumnValues(rows: seq<RawContainer>, col: Column): (vs: seq<Q.RawValue>)
    ensures |vs| == |rows|
    ensures forall i | 0 <= i < |rows| :: vs[i] == RawField(rows[i], col)
  {
    seq(|rows|, i requires 0 <= i < |rows| => RawField(rows[i], col))
  }

  /** Every quantity in the order the conversion visits it: column by column,
      and within a column the current rows and then the history rows. */
  function ConversionOrder(current: seq<RawContainer>, history: seq<RawContainer>, cols: seq<Column>): seq<Q.RawValue>
  {
    if cols == [] then []
    else ColumnValues(current, cols[0]) + ColumnValues(history, cols[0]) + ConversionOrder(current, history, cols[1..])
  }

  /** The error of the first value that does not convert. */
  function FirstError(vs: seq<Q.RawValue>): Q.Option<Q.ParseError>
  {
    if vs == [] then Q.None
    else match Q.Parse(vs[0])
      case Err(e) => Q.Some(e)
      case Ok(_) => FirstError(vs[1..])
  }

  lemma {:induction false} FirstErrorAppend(a: seq<Q.RawValue>, b: seq<Q.RawValue>)
    ensures FirstError(a + b) == if FirstError(a).Some? then FirstError(a) else FirstError(b)
  {
    if a != [] {
      assert (a + b)[1..] == a[1..] + b;
      FirstErrorAppend(a[1..], b);
    } else {
      assert a + b == b;
    }
  }

  lemma {:induction false} ColumnErrorIsFirst(rows: seq<RawContainer>, col: Column)
    ensures ColumnError(rows, col) == FirstError(ColumnValues(rows, col))
  {
    if rows != [] {
      ColumnErrorIsFirst(rows[1..], col);
      assert ColumnValues(rows, col)[1..] == ColumnValues(rows[1..], col);
    }
  }

  /** The reported conversion error is that of the first value, in conversion
      order, that does not convert. */
  lemma {:induction false} FrameErrorIsFirst(current: seq<RawContainer>, history: seq<RawContainer>, cols: seq<Column>)
    ensures FrameError(current, history, cols) == FirstError(ConversionOrder(current, history, cols))
  {
    if cols != [] {
      var a, b := ColumnValues(current, cols[0]), ColumnValues(history, cols[0]);
      var rest := ConversionOrder(current, history, cols[1..]);
      FrameErrorIsFirst(current, history, cols[1..]);
      ColumnErrorIsFirst(current, cols[0]);
      ColumnErrorIsFirst(history, cols[0]);
      FirstErrorAppend(a + b, rest);
      FirstErrorAppend(a, b);
    }
  }

  /** A failed conversion reports the first unconvertible value: columns in
      the order request and limit of CPU, of memory, then CPU and memory
      usage; within a column the current rows before the history rows. */
  lemma ParseFramesReportsFirstError(current: seq<RawContainer>, history: seq<RawSample>)
    ensures ParseFrames(current, history).Err? ==>
      Q.Some(ParseFrames(current, history).error) == FirstError(ConversionOrder(current, HistoryRows(history), Columns))
  {
    FrameErrorIsFirst(current, HistoryRows(history), Columns);
  }

  /* ---------------- selection ---------------- */

  /** A sample is selected exactly when it is in the history and belongs to the container. */
  lemma {:induction false} SelectHistoryMembers(history: seq<Sample>, c: Container, s: Sample)
    ensures s in SelectHistory(history, c) <==> s in history && SameContainer(s, c)
  {
    if history != [] {
      SelectHistoryMembers(history[1..], c, s);
      assert history == [history[0]] + history[1..];
    }
  }

  /** Selection keeps the order of the history: selecting from a
      concatenation concatenates the selections. */
  lemma {:induction false} SelectHistoryAppend(a: seq<Sample>, b: seq<Sample>, c: Container)
    ensures SelectHistory(a + b, c) == SelectHistory(a, c) + SelectHistory(b, c)
  {
    if a == [] {
      assert a + b == b;
    } else {
      assert (a + b)[1..] == a[1..] + b;
      SelectHistoryAppend(a[1..], b, c);
    }
  }

  /** The namespace takes no part in selecting history. */
  lemma {:induction false} SelectIgnoresNamespace(history: seq<Sample>, c: Container, ns: string)
    ensures SelectHistory(history, c.(namespace := ns)) == SelectHistory(history, c)
  {
    if history != [] {
      SelectIgnoresNamespace(history[1..], c, ns);
    }
  }

  /** Two containers that differ only in namespace get the same suggestions. */
  lemma NamespaceIgnored(c: Container, ns: string, history: seq<Sample>)
    ensures ContainerRecommendations(c.(namespace := ns), history) == ContainerRecommendations(c, history)
  {
    SelectIgnoresNamespace(history, c, ns);
  }

  /* ---------------- ordering ---------------- */

  /** Suggestions follow the order of the containers: recommending for a
      concatenation concatenates the recommendations. */
  lemma {:induction false} RecommendAppend(a: seq<Container>, b: seq<Container>, history: seq<Sample>)
    ensures Recommend(a + b, history) == Recommend(a, history) + Recommend(b, history)
  {
    if a == [] {
      assert a + b == b;
    } else {
      var head := ContainerRecommendations(a[0], history);
      assert (a + b)[0] == a[0] && (a + b)[1..] == a[1..] + b;
      RecommendAppend(a[1..], b, history);
      Associative(head, Recommend(a[1..], history), Recommend(b, history));
    }
  }

  lemma Associative<T>(x: seq<T>, y: seq<T>, z: seq<T>)
    ensures x + (y + z) == (x + y) + z
  {
  }

  /** The suggestions for a single container are that container's own. */
  lemma RecommendOne(c: Container, history: seq<Sample>)
    ensures Recommend([c], history) == ContainerRecommendations(c, history)
  {
    assert [c][1..] == [];
  }

  /** A container gets a suggestion for a resource exactly when it has history
      and that resource's forecast is below its threshold of a positive limit;
      the suggestion carries that forecast. */
  lemma SuggestedExactly(c: Container, history: seq<Sample>, kind: Resource)
    ensures var rs := ContainerRecommendations(c, history);
      var h := SelectHistory(history, c);
      (exists i | 0 <= i < |rs| :: rs[i].resource == kind)
        <==> h != [] && Limit(c, kind) > 0.0 && Forecast(h, kind) < Threshold(kind) * Limit(c, kind)
    ensures var rs := ContainerRecommendations(c, history);
      forall i | 0 <= i < |rs| :: rs[i].predicted == Forecast(SelectHistory(history, c), rs[i].resource)
  {
    var h := SelectHistory(history, c);
    if h != [] {
      var cpu, mem := Suggest(c, Cpu, Forecast(h, Cpu)), Suggest(c, Memory, Forecast(h, Memory));
      var rs := Present(cpu) + Present(mem);
      assert ContainerRecommendations(c, history) == rs;
      if kind == Cpu && cpu.Some? {
        assert rs[0].resource == kind;
      }
      if kind == Memory && mem.Some? {
        assert rs[|rs| - 1].resource == kind;
      }
    }
  }

  /* ---------------- forecasts ---------------- */

  /** Steady usage is forecast as that usage, whatever the timestamps. */
  lemma SteadyUsageForecast(history: seq<Sample>, kind: Resource, u: real)
    requires history != []
    requires forall i | 0 <= i < |history| :: Usage(history[i].metrics, kind) == u
    ensures Forecast(history, kind) == u
  {
    F.ConstantUsageForecast(UsagePoints(history, kind), u);
  }

  /** Usage exactly on a line over at least two distinct timestamps is
      forecast as that line one hour after the latest sample. */
  lemma LinearUsageForecast(history: seq<Sample>, kind: Resource, l: F.Line)
    requires history != []
    requires exists i, j | 0 <= i < |history| && 0 <= j < |history| :: history[i].timestamp != history[j].timestamp
    requires forall i | 0 <= i < |history| :: Usage(history[i].metrics, kind) == l.At(history[i].timestamp)
    ensures Forecast(history, kind) == l.At(F.MaxTime(UsagePoints(history, kind)) + 3600.0)
  {
    var ps := UsagePoints(history, kind);
    var i, j :| 0 <= i < |history| && 0 <= j < |history| && history[i].timestamp != history[j].timestamp;
    assert !F.AllSameTime(ps) by {
      if ps[i].time == ps[0].time {
        assert ps[j].time != ps[0].time;
      }
    }
    F.OnLineEveryPoint(ps, l);
    F.LinearForecastExact(ps, l);
  }

  /** A single sample is forecast as its own usage: the code asks for no
      minimum amount of history. */
  lemma SingleSampleForecast(s: Sample, kind: Resource)
    ensures Forecast([s], kind) == Usage(s.metrics, kind)
  {
    SteadyUsageForecast([s], kind, Usage(s.metrics, kind));
  }

  /* ---------------- suggestions ---------------- */

  /** A limit that is not positive, such as the `"0"` a missing limit
      defaults to, never yields a suggestion for that resource. */
  lemma NoLimitNoSuggestion(c: Container, kind: Resource, history: seq<Sample>)
    requires Limit(c, kind) <= 0.0
    ensures forall i | 0 <= i < |ContainerRecommendations(c, history)| ::
      ContainerRecommendations(c, history)[i].resource != kind
  {
  }

  /** The text `"0"` converts to zero. */
  lemma ZeroText()
    ensures Q.Parse(Q.Text("0")) == Q.Ok(0.0)
  {
    var d := Q.Decimal(false, 0, 0, 0);
    assert Q.Format(d, Q.NoSuffix) == "0";
    Q.WholeDecimalValue(d);
    Q.FormatRoundTrip(d, Q.NoSuffix);
  }

  /** A container whose CPU limit arrives as the default `"0"` gets no CPU suggestion. */
  lemma DefaultCpuLimitNoSuggestion(r: RawContainer, history: seq<Sample>)
    requires RowParses(r) && r.cpuLimit == Q.Text("0")
    ensures forall i | 0 <= i < |ContainerRecommendations(ParseRow(r), history)| ::
      ContainerRecommendations(ParseRow(r), history)[i].resource == Memory
  {
    ZeroText();
    assert Q.Parse(RawField(r, CpuLimit)) == Q.Ok(Field(ParseRow(r), CpuLimit));
    NoLimitNoSuggestion(ParseRow(r), Cpu, history);
  }

  /** A forecast at or below zero suggests exactly the floor. */
  lemma LowForecastGetsFloor(c: Container, kind: Resource, predicted: real)
    requires predicted <= 0.0 && Limit(c, kind) > 0.0
    ensures Suggest(c, kind, predicted).Some?
    ensures Suggest(c, kind, predicted).value.suggestedRequest == Floor(kind)
    ensures Suggest(c, kind, predicted).value.suggestedLimit == 1.5 * Floor(kind)
  {
  }

  /** The suggested memory limit can exceed the current one: a 10 MiB limit
      with a 1 MiB forecast is suggested a 15 MiB limit. */
  lemma MemoryLimitMayGrow(c: Container)
    requires c.memoryLimit == 10.0
    ensures Suggest(c, Memory, 1.0).Some?
    ensures Suggest(c, Memory, 1.0).value.suggestedLimit == 15.0 > c.memoryLimit
  {
  }

  /** A container with steady CPU usage `u` below half its limit is
      suggested a request of max(1.2·u, 0.01) and a limit of 1.5 times that. */
  lemma SteadyCpuSuggestion(c: Container, history: seq<Sample>, u: real)
    requires SelectHistory(history, c) != []
    requires forall i | 0 <= i < |SelectHistory(history, c)| :: SelectHistory(history, c)[i].metrics.cpuUsage == u
    requires c.cpuLimit > 0.0 && u < 0.5 * c.cpuLimit
    ensures var rs := ContainerRecommendations(c, history);
      && rs != [] && rs[0].resource == Cpu && rs[0].predicted == u
      && rs[0].suggestedRequest == (if 1.2 * u >= 0.01 then 1.2 * u else 0.01)
      && rs[0].suggestedLimit == 1.5 * rs[0].suggestedRequest
  {
    var h := SelectHistory(history, c);
    SteadyUsageForecast(h, Cpu, u);
  }
}
