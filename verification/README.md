# Kubernetes resource right-sizing, modelled in Dafny

The system reads the CPU and memory requests, limits and usage of every
running container, together with a history of usage samples. It forecasts
each container's usage one hour ahead with a least-squares line and suggests
a smaller request and limit for any resource whose forecast sits well below
its current limit. The model covers the three steps of that core:

- `quantity.dfy` (module `QuantityCodec`) models quantity conversion. A
  field arrives either as a number, which passes through, or as text. Text
  is lower-cased. A trailing `m` divides by 1000, `mi` keeps the value in
  MiB, `gi` multiplies by 1024, and any other text must be a plain
  floating-point literal. A failure carries the lower-cased mantissa text
  that the float conversion rejected. Lower-casing is ASCII-only; see the
  last section.
- `forecast.dfy` (module `UsageForecaster`) models the forecast. It fits a
  least-squares line of usage against timestamp and evaluates that line
  3600 seconds after the latest timestamp.
- `optimizer.dfy` (module `OptimizationEngine`) models the pipeline:
  - it converts the six quantity columns of both frames, column by column;
  - it selects each current container's history by pod name and container
    name;
  - it forecasts CPU and memory usage;
  - for a positive limit, it emits a CPU suggestion when the forecast is
    below 0.5 of the limit and a memory suggestion when it is below 0.7.
    The suggested request is the larger of 1.2 times the forecast and a
    floor of 0.01 cores or 10 MiB. The suggested limit is 1.5 times the
    suggested request.

Numbers are exact reals. Frames are sequences of records, and a
suggestion is a record of numbers.

Behaviour of the code that the model keeps:

- The code raises no error for too little history. A container with a
  single sample, or with all samples at one timestamp, is still forecast
  (`SingleSampleForecast`). With all samples at one timestamp, the forecast
  is the mean usage (`UsageForecaster.DegenerateForecastIsMeanUsage`). That
  is what the regression library's minimum-norm solution gives: slope 0,
  intercept the mean.
- Text is lower-cased before the suffix test, so `"100M"` reads as 100
  millicores, i.e. 0.1 (`QuantityCodec.UpperCaseMExample`). Also, `Ki` and
  other suffixes are rejected rather than converted
  (`QuantityCodec.KibiExample`).
- The suggested memory limit can exceed the current limit
  (`MemoryLimitMayGrow`).

## Model

| member | source | states |
|---|---|---|
| QuantityCodec.Parse | optimizer.py:6-18 | a number converts to itself; a text failure names a mantissa that the float conversion rejects |
| QuantityCodec.ParseIgnoresCase | optimizer.py:10 | two texts that agree after lower-casing convert to the same value or the same error |
| QuantityCodec.ParseSuffixed | optimizer.py:10-18 | an accepted mantissa followed by `m`, `Mi`, `Gi` or nothing denotes the mantissa divided by 1000, unchanged, times 1024, or unchanged. Other spellings of the suffix, such as `MI`, follow through `ParseIgnoresCase` |
| QuantityCodec.AcceptedIsQuantity | optimizer.py:10-18 | text converts only if, once lower-cased, it is a mantissa the float conversion accepts followed by `m`, `mi`, `gi` or nothing |
| QuantityCodec.MalformedMantissaFails | optimizer.py:11-18 | a mantissa the float conversion rejects that ends in a digit or a point, followed by any supported suffix, fails, and the error names the lower-cased mantissa |
| QuantityCodec.TwoPointsExample | optimizer.py:11-12 | `1.2.3m` is rejected, and the error names `1.2.3` |
| QuantityCodec.SplitSuffixRecovers | optimizer.py:11-16 | the ordered suffix tests recognise each suffix after an accepted mantissa and give back the mantissa intact, so `mi` and `gi` are never taken for milli |
| QuantityCodec.UnknownSuffixFails | optimizer.py:17-18 | text ending in any other letter fails, and the error names the whole lower-cased text |
| QuantityCodec.FormatRoundTrip | optimizer.py:6-18 | every decimal, written with any supported suffix, converts back to its value scaled by that suffix |
| QuantityCodec.RenderRoundTrip | optimizer.py:18 | a written decimal is already lower case and the float conversion reads back its exact value |
| QuantityCodec.RenderValue | optimizer.py:18 | the float conversion of a written decimal is that decimal's value |
| QuantityCodec.ParsedTextEnd | optimizer.py:11-18 | any text the float conversion accepts ends in a digit or a decimal point, so it cannot end in a suffix letter |
| QuantityCodec.Lower | optimizer.py:10 | lower-casing keeps the length, lowers every letter `A`–`Z` and leaves every other character as it is (ASCII only, see the last section) |
| QuantityCodec.SplitSuffixDecomposes | optimizer.py:11-17 | splitting off the suffix loses nothing: the lower-cased text is always the mantissa returned followed by the lower-case spelling of the suffix found. `SplitSuffixRecovers` shows that each suffix is found after an accepted mantissa |
| QuantityCodec.ParseFloat | optimizer.py:12-18 | no contract of its own; it models `float()` on the lower-cased mantissa. `RenderValue` shows that it reads back every written decimal exactly, and `ParsedTextEnd` that what it accepts ends in a digit or a point |
| QuantityCodec.LowerAppend | optimizer.py:10 | lower-casing works character by character across a concatenation |
| QuantityCodec.MilliExample | optimizer.py:11-12 | `100m` converts to 0.1 cores |
| QuantityCodec.MebiExample | optimizer.py:13-14 | `512Mi` converts to 512 MiB |
| QuantityCodec.GibiExample | optimizer.py:15-16 | `1Gi` converts to 1024 MiB |
| QuantityCodec.KibiExample | optimizer.py:17-18 | `1Ki` is rejected, and the error names `1ki` |
| QuantityCodec.UpperCaseMExample | optimizer.py:10-12 | `100M` is read as milli after lower-casing, giving 0.1 |
| QuantityCodec.PowersOfTen | optimizer.py:18 | scaling by a power of ten, one digit at a time, is multiplication or division by that power |
| UsageForecaster.Slope | optimizer.py:23 | no contract of its own; `SlopeBalances` states the least-squares normal equation it satisfies, and `SlopeOfLinear` that it recovers the slope of points on a line |
| UsageForecaster.Fit | optimizer.py:23 | no contract of its own; `ResidualsBalance` states that its residuals sum to zero, and `LinearFitExact` that it reproduces any line all the points lie on |
| UsageForecaster.MaxTime | optimizer.py:24 | no contract of its own; `MaxTimeIsLatest` states that it is one of the timestamps and not earlier than any |
| UsageForecaster.PredictFutureUsage | optimizer.py:20-25 | no contract of its own; `LinearForecastExact`, `ConstantUsageForecast` and `DegenerateForecastIsMeanUsage` state the forecast for usage on a line, for constant usage and for a single timestamp |
| UsageForecaster.MaxTimeIsLatest | optimizer.py:24 | the forecast time is based on a timestamp that is in the history and not earlier than any other |
| UsageForecaster.ConstantUsageForecast | optimizer.py:20-25 | usage constant at c is forecast as c, whatever the timestamps |
| UsageForecaster.LinearForecastExact | optimizer.py:20-25 | usage lying exactly on a line over two or more distinct timestamps is forecast as that line at the latest timestamp plus 3600 |
| UsageForecaster.LinearFitExact | optimizer.py:21-23 | the fitted line reproduces any line that all the points lie on, at every time |
| UsageForecaster.SlopeOfLinear | optimizer.py:23 | the fitted slope of points on a line is that line's slope |
| UsageForecaster.DegenerateForecastIsMeanUsage | optimizer.py:20-25 | when every sample shares one timestamp, the forecast is the mean usage |
| UsageForecaster.DegenerateIffSameTime | optimizer.py:23 | the timestamps have zero spread exactly when they are all equal |
| UsageForecaster.ResidualsBalance | optimizer.py:23 | the residuals of the fitted line sum to zero, which is the intercept's least-squares normal equation |
| UsageForecaster.SlopeBalances | optimizer.py:23 | the fitted slope times the timestamps' spread equals their co-spread with usage, which is the slope's least-squares normal equation |
| UsageForecaster.SpreadPositive | optimizer.py:23 | a timestamp away from the mean makes the spread positive |
| UsageForecaster.OnLineEveryPoint | optimizer.py:21-22 | the recursive on-a-line predicate holds exactly when every point lies on the line |
| UsageForecaster.CoSpreadOfLinearUsage | optimizer.py:23 | for points on a line, the co-spread is the line's slope times the spread |
| OptimizationEngine.ParseRow | optimizer.py:28-30 | a converted row keeps its names, and each of its six quantities is the conversion of the raw field |
| OptimizationEngine.ColumnError | optimizer.py:29-30 | a column has no error exactly when every row converts; a reported error is that of a row all of whose predecessors convert |
| OptimizationEngine.FrameError | optimizer.py:28-30 | no error is reported exactly when every column of every row of both frames converts |
| OptimizationEngine.ParseFrames | optimizer.py:28-30 | conversion succeeds exactly when every row of both frames converts. On success, each current row becomes its converted row, and each history sample becomes its converted row with its timestamp, in order |
| OptimizationEngine.FrameErrorIsFirst | optimizer.py:28-30 | the reported error is the first failure in conversion order: column by column, current rows before history rows |
| OptimizationEngine.ColumnErrorIsFirst | optimizer.py:29-30 | within one column, the reported error is the first failure in row order |
| OptimizationEngine.FirstErrorAppend | optimizer.py:28-30 | the first failure in a concatenation is the first failure of its front part, if any, and otherwise that of its back part |
| OptimizationEngine.ParseFramesReportsFirstError | optimizer.py:28-30 | a failed conversion of both frames reports the first failure in conversion order |
| OptimizationEngine.SelectHistory | optimizer.py:35-38 | the selected history is no longer than the history, and every selected sample matches the container |
| OptimizationEngine.SelectHistoryMembers | optimizer.py:35-38 | a sample is selected exactly when it is in the history and matches the container's pod and container name |
| OptimizationEngine.SelectHistoryAppend | optimizer.py:35-38 | selection keeps history order: selecting from a concatenation concatenates the selections |
| OptimizationEngine.SelectIgnoresNamespace | optimizer.py:35-38 | the namespace takes no part in the selection |
| OptimizationEngine.NamespaceIgnored | optimizer.py:34-74 | containers that differ only in namespace get identical suggestions |
| OptimizationEngine.UsagePoints | optimizer.py:21-22 | the regression points pair each sample's timestamp with its usage, in order |
| OptimizationEngine.RatioBelow | optimizer.py:46-47 | for a positive limit, the ratio test is the comparison of the forecast with the threshold fraction of the limit |
| OptimizationEngine.Suggest | optimizer.py:44-74 | a suggestion exists exactly when the limit is positive and the forecast is below 0.5 of it (CPU) or 0.7 of it (memory). It copies the names, the current request and limit, and the forecast. Its request is the larger of 1.2 times the forecast and the floor, and its limit is 1.5 times its request |
| OptimizationEngine.ContainerRecommendations | optimizer.py:40-74 | a container gets at most two suggestions and none without history. Each names the container and carries its current request and its current limit, which is positive, and a forecast below the threshold of it. Each has a request that is the larger of 1.2 times the forecast and the floor, and a limit 1.5 times that request. CPU comes before memory |
| OptimizationEngine.SuggestedExactly | optimizer.py:40-74 | a container gets a suggestion for a resource exactly when it has history and that resource's forecast is below the threshold of a positive limit. Each suggestion carries the forecast of the container's own history |
| OptimizationEngine.Recommend | optimizer.py:34-74 | there are at most two suggestions per container, and each comes from a current container whose pod, container name, current request and current limit it carries. Every suggestion has a positive limit, a forecast below the threshold of it, a request that is the larger of 1.2 times the forecast and the floor, and a limit 1.5 times that request |
| OptimizationEngine.RecommendAppend | optimizer.py:34 | suggestions follow container order: recommending for a concatenation concatenates the results |
| OptimizationEngine.RecommendOne | optimizer.py:34-74 | the suggestions for a single container are that container's own |
| OptimizationEngine.OptimizeResources | optimizer.py:27-76 | the pipeline succeeds exactly when every quantity converts. It then yields exactly the suggestions for the converted current containers against the converted history, at most two per container. Each has a positive current limit, a forecast below the threshold of it, a request that is the larger of 1.2 times the forecast and the floor, and a limit 1.5 times that request. When it fails, the error is the first failing value's, in column order, current frame before history |
| OptimizationEngine.Forecast | optimizer.py:41-42 | no contract of its own; `SteadyUsageForecast`, `LinearUsageForecast` and `SingleSampleForecast` state what it forecasts from a container's history |
| OptimizationEngine.SteadyUsageForecast | optimizer.py:41-42 | steady usage of a resource is forecast as that usage |
| OptimizationEngine.LinearUsageForecast | optimizer.py:41-42 | usage on a line over distinct timestamps is forecast as the line one hour after the latest sample |
| OptimizationEngine.SingleSampleForecast | optimizer.py:40-42 | a single sample is enough for a forecast, and the forecast is that sample's usage |
| OptimizationEngine.NoLimitNoSuggestion | optimizer.py:45-64 | a limit that is not positive never yields a suggestion for that resource |
| OptimizationEngine.ZeroText | optimizer.py:17-18 | the text `0` converts to zero |
| OptimizationEngine.DefaultCpuLimitNoSuggestion | optimizer.py:45 | a row whose CPU limit is the text `0` gets no CPU suggestion |
| OptimizationEngine.LowForecastGetsFloor | optimizer.py:44-64 | a forecast at or below zero, against a positive limit, is suggested exactly the floor, with a limit of 1.5 times the floor |
| OptimizationEngine.MemoryLimitMayGrow | optimizer.py:61-72 | a 10 MiB memory limit with a 1 MiB forecast is suggested a 15 MiB limit, which is larger than the current one |
| OptimizationEngine.SteadyCpuSuggestion | optimizer.py:44-56 | steady CPU usage u below half a positive limit is suggested the larger of 1.2u and 0.01 as request, and 1.5 times that as limit |

## Left out

- Fetching the metrics and the history (`k8s_metrics.py`) and the
  command-line entry point are I/O. `k8s_metrics.py` is not part of this
  model. When that module finds no limit, it reports the text `"0"`; the
  model treats that as an ordinary field, and `DefaultCpuLimitNoSuggestion`
  shows what follows from it.
- Frames are sequences of records, not data frames:
  - an empty current frame simply yields no suggestions;
  - a missing column, such as in a frame built from an empty list, is a
    lookup error in the source and is not modelled;
  - in-place mutation of the caller's frames is not modelled.
- Python floats are modelled as exact reals:
  - rounding, overflow, infinities and NaN are not modelled;
  - the regression library's floating-point solver is modelled by its exact
    closed form. Its results may differ in the last bits.
- The float grammar is modelled as an optional sign, digits with at most
  one decimal point, and an optional exponent. Surrounding whitespace,
  digit-group underscores, `inf`/`nan` and non-ASCII digits, all of which
  Python's `float()` accepts, are left out. Such text is rejected by the
  model.
- Number-typed fields are taken as reals. `float()` of a very large Python
  integer can overflow; that is not modelled.
- Output formatting:
  - suggestions are records of numbers, not strings with `Mi` appended;
  - the memory figures' rounding to whole MiB (`:.0f`) is not modelled;
  - the human-readable `reason` text is not modelled;
  - the final conversion of the list into a data frame is not modelled.
- QuantityCodec.Lower: lower-casing is ASCII-only (`A`–`Z`). Python's
  `str.lower()` folds all of Unicode and may change the text's length. Which
  text converts, and to what value, is the same either way, because the
  float grammar and suffixes are ASCII. But a non-ASCII upper-case letter
  in rejected text stays as it is in the error's mantissa. For example, `1Ä`
  yields the error text `1Ä` where Python quotes `1ä`.
- The exception types are not modelled. A conversion failure is modelled
  as an error value carrying the rejected mantissa, not as a Python
  `ValueError` with its message.
- UsageForecaster.ResidualsBalance: least squares is stated through its
  two normal equations, not as minimality of the squared error over all
  lines.
