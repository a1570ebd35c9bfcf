# JayBeams: verified models

This project models four parts of JayBeams and proves what they are for.

1. **Event rates and histograms** (`SlidingWindow`, `RateEstimator`, `Binning`, `Tally`, `Quantile`, `Summary`,
   `Mean`, `Histogram`, `RateHistogram`). The estimator keeps the counters of the trailing sampling periods in a
   circular buffer and replaces an idle gap of any length with one weighted update. It is proved to refine a plain
   definition that counts, for every elapsed period, the samples in the window that ends there. The histogram is
   proved to be a function of the recorded multiset of samples, its quantile and mean estimates are compared with the
   exact order statistic and the exact sum, and both are composed into theorems about the histogram of rates.
2. **Configuration overrides** (`Yaml`, `YamlNode`, `Config`, `ConfigNode`, `Resolver`, `Precedence`, `Isolation`,
   `NewItems`, `Faults`, `Registration`, `Overrides`, `Dump`, `DumpNode`). The in-place merge of shared YAML nodes and
   the pass that changes configuration objects run on a heap of mutable nodes and are proved equal to functions on
   values; those functions are then proved to be right-biased, associative and idempotent, to agree with a resolver that
   looks at one leaf at a time, to take class overrides from the keys that start with a colon, to keep what is written
   at one place from every leaf outside it, to throw exactly at a fault on some path, and to undo the dump.
3. **Cpu sets** (`ListFormat`, `AcceptedText`, `PrintedText`, `CpuSet`). The printer of the list format and its parser
   are proved to undo each other, the printed text to be canonical, and the printed and the accepted texts, and the
   exception for every other text, to be exactly described, for every capacity.
4. **Powers of two and the embedded HTTP server** (`P2Ceil`, `Dispatcher`, `Server`, `ServerHistory`). Bit smearing is
   proved for every width 2^k. The acceptor and the connections are a machine of interleaved steps whose counters obey
   conservation laws in every reachable state and report exactly the events of every run.

Where the original updates fields in place the model is a class whose methods change the same fields, and every
method is proved against a function or a predicate about the values before and after it; the theorems are about those.
Methods named after nothing in the original are one round of an original loop, or one branch of an original method.

## Reading guide

- Timestamps are integers counted in the duration's unit, of either sign; division truncates toward zero.
- `double` is `real`; `std::floor` is the mathematical floor.
- Functors handed to `sample` become the returned sequence of the calls made to them; `event_rate_histogram` records
  that sequence in order.
- Ghost fields (`timestamps`, `emitted`, `log`) hold the history that the counters are compared with.
- An exception is an `Err` or a `None`. After an exception nothing is claimed about what was being changed.
- The limits of the sample type are a parameter of the binning; the capacity of a cpu set is a parameter.

## Where code and documentation disagree

The model follows the code.

- The estimator's documentation asks for more counters than measurement period over sampling period; the code uses
  exactly that many.
- `p2ceil` is documented for arguments up to and including 2^63 (2^31, 2^15, 2^7). At that bound the result is zero.
- The parser of cpu sets accepts more than the documented grammar: a comma at the end, the empty text, blanks and a
  sign before a number, and a range whose low end is one above its high end. `AcceptedText.ParsedMeans` says exactly
  what is accepted.
- A class override written directly in an item of a list, or in the map of another class override, is ignored.
- A summary need not be sorted: the first quartile is interpolated from the lower edge of the first occupied region,
  which may lie below every sample, and the last percentile to the upper edge of the last one. With unit bins this
  takes samples that all lie outside the range; with wider bins one sample in the range is enough.
- The mean of samples with a negative total divides by an unsigned number of samples; for 64-bit sample types the
  quotient is then wrong unless there is one sample.
- `write_ok` is exported as the number of successful writes, and no connection ever counts one.

## Model

| member | source | states |
|---|---|---|
| SlidingWindow.EffectiveIsRunningMaximum | jb/event_rate_estimator.hpp:109-138 | A sample is counted in the running maximum of the timestamps' sampling periods: out-of-order samples go to the latest period. |
| SlidingWindow.WindowSlide | jb/event_rate_estimator.hpp:158-166 | Moving the window by one period drops exactly the oldest period and adds an empty one. |
| SlidingWindow.WindowOverLast | jb/event_rate_estimator.hpp:121-133 | The window is non-empty for exactly the n periods from the latest sample on, which is when the loop stops. |
| SlidingWindow.ExpandJumpUpdates | jb/event_rate_estimator.hpp:121-138 | Expanding the updates of one jump gives the window count of every period passed: the shortcut for idle periods is invisible. |
| SlidingWindow.RunRefinesWindows | jb/event_rate_estimator.hpp:91-144 | Refinement: over every timestamp sequence the expanded updates are exactly one window count per period from the first up to but excluding the current one. |
| SlidingWindow.RunDoubleCounting | jb/event_rate_estimator.hpp:121-144 | Over every run the sum of rate times repeats equals the sum over the samples of min(n, elapsed periods), and the repeats sum to the elapsed periods. |
| SlidingWindow.JumpCost | jb/event_rate_estimator.hpp:119-138 | A jump of gap periods makes min(gap, n) updates of weight one, each with a positive rate, then one update (0, gap - n) when gap > n; the repeats sum to gap. |
| SlidingWindow.JumpRatesFit | jb/event_rate_estimator.hpp:121-126 | No rate exceeds the number of samples recorded so far. |
| RateEstimator.BucketCount | jb/event_rate_estimator.hpp:169-209 | The periods are accepted exactly when sampling is positive, at most the measurement period and divides it, and the quotient is below the limit; the number of counters is then the exact quotient. |
| Common.TruncDivTowardZero | jb/event_rate_estimator.hpp:110 | The quotient times the divisor is the dividend, but for less than a divisor on the side of zero. |
| RateEstimator.TotalIsSumOfCounters | jb/event_rate_estimator.hpp:212-219 | Whenever buffer and running total describe the samples, the running total is the sum of the counters. |
| RateEstimator.FirstSample | jb/event_rate_estimator.hpp:150-155 | A cleared buffer with one counter set to one describes a single sample. |
| RateEstimator.RecordedSample | jb/event_rate_estimator.hpp:140-143 | Incrementing the end counter and the total describes the samples with one more in the last period. |
| RateEstimator.RotatedBuffer | jb/event_rate_estimator.hpp:158-166 | Clearing the oldest counter and subtracting it from the total describes the same samples one period later; the total never goes below zero. |
| RateEstimator.IdleBuffer | jb/event_rate_estimator.hpp:131-138 | With a zero total, resetting the end position to 0 and jumping to any later period still describes the samples. |
| RateEstimator.RateEstimator.constructor | jb/event_rate_estimator.hpp:78-86 | A new estimator has no history and as many counters as the quotient of the periods. |
| RateEstimator.RateEstimator.Sample | jb/event_rate_estimator.hpp:101-144 | The calls made to the functor are those of the jump from the previous effective bucket to the new one, for the samples recorded before; buffer and total describe all samples afterwards. |
| RateEstimator.RateEstimator.RecordLater | jb/event_rate_estimator.hpp:109-143 | A sample that is not the first makes the calls of its jump and is then counted in the last bucket. |
| RateEstimator.RateEstimator.Advance | jb/event_rate_estimator.hpp:119-138 | The loop and the shortcut together make exactly the updates of the jump and leave the buffer describing the same samples at the later period. |
| RateEstimator.RateEstimator.Init | jb/event_rate_estimator.hpp:150-155 | The first sample is described and its bucket is the last one. |
| RateEstimator.RateEstimator.Record | jb/event_rate_estimator.hpp:142-143 | One more sample in the last bucket is described. |
| RateEstimator.RateEstimator.Rotate | jb/event_rate_estimator.hpp:158-166 | The same samples are described one period later. |
| Binning.MakeIntegerRange | jb/integer_range_binning.hpp:35-47 | The range is accepted exactly when it is not empty. |
| Binning.MakeExplicitCuts | jb/explicit_cuts_binning.hpp:49-63 | The checks of neighbours accept exactly at least two strictly increasing cuts; the errors name a real repetition or inversion. |
| Binning.UpperBound | jb/explicit_cuts_binning.hpp:84-87 | The binary search splits the cuts into those at most the sample and those above it. |
| Binning.Sample2BinMonotone | jb/histogram.hpp:234-238 | A larger sample never goes to a lower bin. |
| Binning.OuterEdges | jb/histogram.hpp:234-238 | There is at least one bin, and the edges of the first and last bin are the ends of the range. |
| Binning.BinWithinRange | jb/explicit_cuts_binning.hpp:88-90 | The edges of every bin are increasing and inside the range. |
| Binning.BinBracketsSample | jb/explicit_cuts_binning.hpp:84-90 | For both strategies an in-range sample goes to a valid bin, and to bin i if and only if it lies between the edges of bin i. |
| Tally.AddedTallies | jb/histogram.hpp:202-221 | One step of recording keeps every counter equal to the weight of the recorded samples in its interval, and the extremes equal to the least and greatest recorded value. |
| Tally.ExtremesBound | jb/histogram.hpp:207-212 | The observed extremes bound every recorded value. |
| Tally.ExtremesRecorded | jb/histogram.hpp:207-212 | The observed extremes were recorded. |
| Tally.Conservation | jb/histogram.hpp:202-221 | The number of samples is underflow plus bins plus overflow. |
| Tally.TallyOfMultiset | jb/histogram.hpp:202-221 | The state depends only on how often each value was recorded: not on order, nor on how weights were grouped. |
| Tally.Coarsening | jb/explicit_cuts_binning.hpp:49-90 | Fed the same samples over the same range, each explicit-cut bin equals the sum of the unit bins it covers. |
| Quantile.InterpolateBounds | jb/histogram_binning_linear_interpolation.hpp:23-27 | Inside its region the interpolated value stays between the edges, reaches the upper edge only at the end of the region, and does reach it there. |
| Quantile.InterpolateMonotone | jb/histogram_binning_linear_interpolation.hpp:23-27 | Interpolation is monotone in the quantile. |
| Quantile.BeforeIsBelowEdge | jb/histogram.hpp:144-163 | The samples counted before a region are exactly the recorded samples below its edge. |
| Quantile.SomeRegionHolds | jb/histogram.hpp:144-171 | Every quantile in [0, 1] is held by a non-empty region. |
| Quantile.OrderStatisticExists | jb/histogram.hpp:124-128 | Every quantile of a non-empty recording has an exact order statistic. |
| Quantile.QuantileErrorBound | jb/histogram.hpp:136-172 | The estimate lies in the same closed interval (underflow, bin or overflow) as the exact order statistic. |
| Quantile.UnitBinErrorBound | jb/histogram.hpp:136-172 | With unit bins, a quantile that falls into a bin is estimated as the order statistic or one more, whatever under- or overflows. |
| Quantile.QuantileMonotone | jb/histogram.hpp:136-172 | The estimate is monotone in the quantile across underflow, bins and overflow. |
| Quantile.FallsThrough | jb/histogram.hpp:164-171 | The fall-through return of the greatest observed value is the case q = 1 with a non-empty overflow, and no other. |
| Summary.QuantilesInOrder | jb/histogram.hpp:185-194 | Estimated quantiles are unique and in order. |
| Summary.SummarySorted | jb/histogram.hpp:185-194 | For any binning the summary is sorted if and only if the first quartile interpolated over the first occupied region reaches the least value, and the 99th percentile interpolated over the last one does not pass the greatest. |
| Summary.FirstEstimate | jb/histogram.hpp:136-163 | Exactly when an estimated quantile is at least the least value: the share of the first occupied region reaches it. |
| Summary.LastEstimate | jb/histogram.hpp:152-171 | Exactly when an estimated quantile is at most the greatest value. |
| Summary.Quarter | jb/histogram.hpp:190 | The condition on the first quartile in whole numbers. |
| Summary.Percentile | jb/histogram.hpp:192 | The condition on the 99th percentile in whole numbers. |
| Summary.OccupiedRegions | jb/histogram.hpp:144-163 | A histogram with samples has a first and a last occupied region. |
| Summary.SummaryExists | jb/histogram.hpp:185-194 | A histogram with samples has a summary. |
| Summary.SummaryRanks | jb/histogram.hpp:185-194 | With unit bins and every sample in the range, a quarter, a half, three quarters, 9/10 and 99/100 of the samples are at most the five quantiles, and fewer are at most two below them. |
| Summary.UnitSummarySorted | jb/histogram.hpp:185-194 | With unit bins the summary is sorted if and only if neither all samples overflow with their least value beyond the first quartile of the overflow interval, nor all underflow with their greatest below its 99th percentile. |
| Summary.UnsortedInRange | jb/histogram.hpp:185-194 | A concrete summary that is not sorted although its one sample is in the range. |
| Summary.UnsortedSummary | jb/histogram.hpp:185-194 | A concrete summary that is not sorted. |
| Summary.AllOverflow | jb/histogram.hpp:162-171 | When all samples overflow, exactly when an estimate is at least the least sample. |
| Summary.AllUnderflow | jb/histogram.hpp:146-151 | When all samples underflow, exactly when an estimate is at most the greatest sample. |
| Mean.MidpointInside | jb/histogram.hpp:241-243 | A midpoint is inside its interval and half way between its ends, to within half a unit; that of a unit bin is the end nearer to zero. |
| Mean.MidpointHalves | jb/histogram.hpp:241-243 | Twice the midpoint is the sum of its two ends, or one nearer to zero when that sum is odd. |
| Mean.MeanTotalBounds | jb/histogram.hpp:98-122 | For any binning the accumulated total and the true sum both lie between the edge sums of the occupied intervals, and differ by at most half the width of those and half a unit per sample. |
| Mean.TotalHalfway | jb/histogram.hpp:102-120 | For any binning and any number of intervals, twice the accumulated total is the sum of the lower and upper edge sums, to within one per sample. |
| Mean.MeanOfTwelve | jb/histogram.hpp:98-122 | A concrete recording: one sample 12 with the cuts 0, 10 and 20 is estimated as 15, the middle of its bin. |
| Mean.MeanTotalExact | jb/histogram.hpp:98-122 | With unit bins and no underflow or overflow, the total is the true sum plus one for every negative sample. |
| Mean.MeanExact | jb/histogram.hpp:98-122 | With unit bins over a non-negative range and no underflow or overflow the estimate is floor(sum / n). |
| Mean.QuotientExact | jb/histogram.hpp:121 | For 64-bit sample types the final signed-by-unsigned division is the mathematical one if and only if the total is not negative or there is one sample. |
| Mean.QuotientOfNegative | jb/histogram.hpp:121 | For 64-bit sample types a negative total divided by two or more samples is the rounded-down quotient of the total plus two to the power 64. |
| Mean.MeanQuotientExact | jb/histogram.hpp:98-122 | For 64-bit sample types, with unit bins and no underflow or overflow the estimate is the quotient of its total if and only if the sum of the samples plus the number of negative ones is not negative, or there is one sample. |
| Mean.MeanOfNegatives | jb/histogram.hpp:98-122 | A concrete recording, -5 twice, whose mean is estimated as a large positive number. |
| Histogram.Histogram.constructor | jb/histogram.hpp:67-76 | A new histogram holds no sample. |
| Histogram.Histogram.WeightedSample | jb/histogram.hpp:202-221 | The new state is the old one with the sample added, and holds the counters of all recorded samples; a weight of zero changes nothing. |
| Histogram.Histogram.Count | jb/histogram.hpp:206-220 | The counters after a sample of positive weight: number of samples, extremes, and exactly the counter of its interval. |
| Histogram.Histogram.RecordSample | jb/histogram.hpp:197-199 | A sample of weight one. |
| Histogram.Histogram.Reset | jb/histogram.hpp:224-227 | No sample is left. |
| Histogram.Histogram.EstimatedQuantile | jb/histogram.hpp:136-172 | Throws exactly for an empty histogram or a quantile outside [0, 1]; otherwise returns the estimate in the first non-empty region that reaches the quantile. |
| Histogram.Histogram.ScanQuantile | jb/histogram.hpp:144-171 | The scan with its running counters finds that region, and its last return is that estimate too. |
| Histogram.Histogram.GetSummary | jb/histogram.hpp:185-194 | All zeros when empty; otherwise the extremes and the estimates of the quantiles 0.25, 0.5, 0.75, 0.9 and 0.99. |
| Histogram.Histogram.EstimatedMean | jb/histogram.hpp:98-122 | Throws exactly when empty; otherwise the total of the midpoints divided by the number of samples as 64-bit types do. |
| Histogram.Histogram.AccumulateMidpoints | jb/histogram.hpp:102-120 | The loop adds the midpoint of its region for every sample. |
| RateHistogram.HistogramOfWindows | jb/event_rate_histogram.hpp:89-103 | End to end: one sample per elapsed period, bin r counts the periods whose window holds r events, overflow the periods at or above the maximum, no underflow. |
| RateHistogram.LastRateIsLastWindow | jb/event_rate_histogram.hpp:98-111 | The last rate is the window count of the last elapsed period. |
| RateHistogram.RateQuantileBound | jb/event_rate_histogram.hpp:98-124 | Every rate quantile below the maximum is within one event of the exact one over the elapsed periods, even when some windows overflow. |
| RateHistogram.RateMean | jb/event_rate_histogram.hpp:98-124 | While no window reaches the maximum, the estimated mean is the total exposure of the samples over the elapsed periods, rounded down. |
| RateHistogram.RateHistogram.constructor | jb/event_rate_histogram.hpp:89-95 | A new rate histogram starts an empty run with the given periods and maximum. |
| RateHistogram.RateHistogram.CountersOfRun | jb/event_rate_histogram.hpp:98-103 | The counters are those of the run sampled so far, the link to the end-to-end theorems. |
| RateHistogram.RateHistogram.OnUpdate | jb/event_rate_histogram.hpp:99-102 | One call of the functor records one update. |
| RateHistogram.RateHistogram.RecordEvent | jb/event_rate_histogram.hpp:98-103 | After an event the histogram holds the updates of the run with that event. |
| RateHistogram.RateHistogram.GetLastRate | jb/event_rate_histogram.hpp:106-111 | Throws exactly when no period has elapsed; otherwise the window count of the last one. |
| Yaml.MergedKind | jb/merge_yaml.cpp:5-38 | An empty map or sequence changes nothing; any other source decides the kind of the result, and the target is of that kind or null. |
| Yaml.MergeRightBiased | jb/merge_yaml.cpp:5-38 | Whenever a merge succeeds, what is found at any path is what the source has there, otherwise what the target has; sequences get the longer length. |
| Yaml.MergeSucceeds | jb/merge_yaml.cpp:5-38 | A merge of compatible trees succeeds when the source has no null. |
| Yaml.MergeThrows | jb/merge_yaml.cpp:5-38 | A merge of compatible trees throws if and only if some path through the source, not leaving the target's items, leads to a null node; nulls in appended items do no harm. |
| Yaml.MergeAssociative | jb/merge_yaml.cpp:5-38 | On pairwise compatible trees whose sources have no null, empty containers included, both groupings succeed and agree at every path. |
| Yaml.MergeIdempotent | jb/merge_yaml.cpp:5-38 | Merging the same source again changes nothing. |
| Yaml.MergeSelf | jb/merge_yaml.cpp:5-38 | Merging a document into itself changes nothing. |
| Yaml.MergedItemsAt | jb/merge_yaml.cpp:30-38 | Position by position, what a merge of sequences holds, and that it has the longer length. |
| Yaml.MergedScope | jb/merge_yaml.cpp:40-65 | A successful merge of class overrides has the classes of both and no other key. |
| Yaml.ClassKeysStart | jb/merge_yaml.cpp:40-54 | The keys taken from a document into the scope are those of a map that start with a colon. |
| Yaml.ScopeRightBiased | jb/merge_yaml.cpp:40-65 | A leaf of a class override comes from the inner document if it has it; other classes are untouched. |
| YamlNode.YamlNode.MergeNode | jb/merge_yaml.cpp:5-22 | The in-place merge throws exactly when the merge of the two documents does, and otherwise leaves the merged document; only nodes of the target change. |
| YamlNode.YamlNode.MergeMap | jb/merge_yaml.cpp:24-28 | The loop over the source's entries computes the merged map, creating missing entries. |
| YamlNode.YamlNode.MergeSequences | jb/merge_yaml.cpp:30-38 | The loop over the source's items computes the merged sequence; items beyond the target's are copied. |
| YamlNode.YamlNode.MergeEntry | jb/merge_yaml.cpp:24-28 | Merging into a key changes that entry and no other; a new entry is only seen when the merge defines it. |
| YamlNode.YamlNode.MergeElement | jb/merge_yaml.cpp:32-33 | Merging into an item changes that item and no other. |
| YamlNode.YamlNode.Clone | jb/merge_yaml.cpp:67-73 | A copy is the same document and shares no node with the original. |
| Overrides.MergeScope | jb/merge_yaml.cpp:40-65 | The loop with its shared insertions computes the merged scope and changes no node of the document. |
| Overrides.OpenScope | jb/config_object.cpp:85-90 | A copied scope merged with the nested document is the merged scope; the caller's scope and the document do not change. |
| Overrides.ApplyOverrides | jb/config_recurse.hpp:52-108 | The in-place pass over leaves, objects and sequences throws exactly when specified, otherwise leaves the specified configuration, and modifies only nodes of the configuration: neither the document nor the class scope. |
| Overrides.ApplyToAttributes | jb/config_object.cpp:75-93 | The loop over the attributes, each changed in its place, computes the specified fields. |
| Overrides.ApplyToAttribute | jb/config_object.cpp:77-92 | Applying to one attribute changes that attribute as specified and no other. |
| Overrides.ApplyToMember | jb/config_object.cpp:78-91 | First the class override, then the overrides under the name, in a scope of its own. |
| Overrides.ApplyByClass | jb/config_object.cpp:78-84 | The override of the attribute's class, if the attribute has a class and the scope has it, and otherwise nothing. |
| Overrides.ApplyByName | jb/config_object.cpp:85-91 | The nested document under the attribute's name, or a null one, applied in a copied and merged scope. |
| Overrides.ApplyToItems | jb/config_recurse.hpp:86-108 | The items moved into a new sequence, changed, completed by the tail and swapped in are the specified items. |
| Overrides.ApplyToMentioned | jb/config_recurse.hpp:93-103 | After the loop over the document exactly its items are moved and changed, and the rest still waits as it was. |
| Overrides.KeepTail | jb/config_recurse.hpp:104-106 | The items the document does not mention are moved unchanged, after the others. |
| Overrides.Load | jb/config_object.cpp:69-73 | Loading a document throws exactly when specified, otherwise leaves the specified configuration, and modifies no node of the document. |
| Config.Applied | jb/config_recurse.hpp:52-108 | A successful application keeps the shape of the configuration class. |
| Config.FieldsApplied | jb/config_object.cpp:77-92 | Every attribute ends with the value it gets on its own. |
| Config.FieldsAre | jb/config_object.cpp:77-92 | If every attribute on its own gets a value, the object gets exactly those values. |
| Config.ItemsEnd | jb/config_recurse.hpp:90-108 | If every mentioned item on its own gets a value, the list is these values and the tail. |
| Config.ItemFails | jb/config_recurse.hpp:90-103 | If one mentioned item throws, so does the list. |
| ConfigNode.FromValue | jb/config_recurse.hpp:96 | A default-constructed item is a new configuration object with the default value. |
| Resolver.AppliedIsResolved | jb/config_object.cpp:75-93 | Loading is a per-leaf resolver: every leaf has the value of a function of the document, the class scope, its path and what it had before. |
| Faults.ApplyThrows | jb/config_object.cpp:75-93 | Applying overrides throws if and only if some path of the pass meets a map or sequence where a leaf takes its value, or class overrides that cannot be merged; the configuration's values do not matter. |
| Faults.LoadThrows | jb/config_object.cpp:69-73 | Loading throws if and only if the pass with the document's own class overrides meets such a fault. |
| Resolver.ListsKeepTail | jb/config_recurse.hpp:90-108 | A list ends with the longer of the two lengths, its unmentioned tail intact. |
| Resolver.ItemsApplied | jb/config_recurse.hpp:95-103 | An item the document mentions is the existing or a default-constructed item with its overrides applied. |
| Precedence.ByNameWins | jb/config_object.cpp:77-92 | A leaf named by its full path resolves to that value whatever class overrides exist. |
| Precedence.NamedLeafLoaded | jb/config_object.cpp:69-93 | After loading, every leaf that the document names by its full path has the named value. |
| Precedence.PlainResolved | jb/config_object.cpp:85-91 | Along a path without classes and lists only the document counts. |
| Precedence.OwnClass | jb/config_object.cpp:78-91 | A leaf of an attribute of class C comes from its name, then from the key :C of the scope, then from before. |
| Precedence.ClassOverrideLoaded | jb/config_object.cpp:69-92 | After loading, a leaf of an attribute of class C has what the document names by its path, otherwise what the document has under the key :C, otherwise what it had. |
| Precedence.ClassPrecedence | jb/config_object.cpp:75-93 | For an object of class C: by name, then the key :C inside the enclosing map, then :C outside, then the value before. |
| Precedence.InsideScope | jb/config_object.cpp:85-90 | A class override inside a nested document hides the one outside, leaf by leaf. |
| Isolation.LeafIsolation | jb/config_object.cpp:75-93 | At any depth and for any class scope: documents that differ only at one place, named by attribute names and list positions, resolve every leaf outside that place alike, class overrides written there included. |
| Isolation.AppliedIsolation | jb/config_object.cpp:75-93 | Scope isolation of the pass: whatever is written at a place, every leaf outside it ends with the same value, under any class scope. |
| Isolation.LoadedIsolation | jb/config_object.cpp:69-93 | Scope isolation of loading a document, whose own class overrides make the first scope. |
| Isolation.SameScope | jb/merge_yaml.cpp:40-65 | A difference under an attribute's name leaves the merged class scope the same, for any scope. |
| Precedence.ScopeIsolation | jb/config_object.cpp:75-93 | At the root, for whole values: whatever is written inside one attribute's map changes no other attribute. LoadedIsolation and AppliedIsolation state it for every depth and scope. |
| Precedence.RegistrationOrder | jb/config_object.cpp:77-92 | The order in which attributes were registered changes neither success nor any value. |
| Registration.RegistrationDoesNotMatter | jb/config_object.cpp:75-93 | With the attributes of every object reordered at any depth, the same overrides succeed and leave the configurations reordered in the same way. |
| Registration.ReorderedLeaves | jb/config_object.cpp:156-158 | Configurations that differ in the order of attributes have the same leaf under every path of names. |
| Precedence.OwnClassKeysIgnored | jb/config_object.cpp:75-93 | Class keys of the document an object is given directly do not matter: only the maps of attributes, and the root, open a scope. |
| NewItems.NothingChanges | jb/config_object.cpp:75-93 | A document with nothing in it, and no class overrides, changes nothing. |
| NewItems.LoadNothing | jb/config_object.cpp:69-73 | Loading an empty document changes nothing. |
| NewItems.DefaultIsDeclared | jb/config_recurse.hpp:92-98 | A default-constructed object has what its class declares at every leaf. |
| NewItems.NewItemLeaf | jb/config_recurse.hpp:92-103 | An item added beyond the end of a list has what the document gives it by name, and otherwise what its class declares. |
| NewItems.MapForList | jb/config_recurse.hpp:92-107 | A map in place of a list of overrides adds default items up to the number of its entries and changes no item. |
| Dump.DumpKinds | jb/config_object.cpp:182-188 | The dump is a scalar for a leaf, a map or a sequence for what has something in it, and null for an object without attributes or a list without items. |
| Dump.DumpedLeaf | jb/config_object.cpp:182-188 | The dump has every leaf of the configuration at its path, and nothing at the path of a leaf that is not there. |
| Dump.DumpThenLoad | jb/config_object.cpp:182-188 | Applying the dump of c to a configuration whose lists are no longer than c's reproduces c. |
| Dump.ReproducedOnlyIfNoLonger | jb/config_recurse.hpp:86-108 | Wherever applying the dump of c reproduces c, no list was longer than c's. |
| Dump.DumpLoaded | jb/config_object.cpp:69-73 | Loading the dump of c reproduces c if and only if no list was longer than c's, for uniquely named attributes not starting with a colon. |
| Dump.LongerListKeepsTail | jb/config_recurse.hpp:104-106 | A concrete longer list keeps its tail, so the dump does not reproduce. |
| DumpNode.ToYaml | jb/config_recurse.hpp:315-354 | The dump of every shape of configuration object is a new document with the specified value; the object does not change. |
| DumpNode.AttributesToYaml | jb/config_object.cpp:182-188 | The loop over the attributes fills the specified map; with none the document stays null. |
| DumpNode.ItemsToYaml | jb/config_recurse.hpp:348-354 | The loop over the items appends the specified sequence; with none the document stays null. |
| ListFormat.Decimal | jb/cpu_set.cpp:62-68 | Decimal text is not empty and all digits. |
| ListFormat.DecimalRoundTrip | jb/cpu_set.cpp:62-68 | The value of the decimal text of n is n. |
| ListFormat.StrToNumDecimal | jb/strtonum.hpp:39-55 | Reading the decimal text of an int gives that int. |
| ListFormat.RunsDescribe | jb/cpu_set.cpp:58-71 | The printed ranges are exactly the cpus of the set, in increasing order, with an absent cpu between them. |
| ListFormat.SeparatedUnique | jb/cpu_set.cpp:58-71 | A set has only one such list of ranges. |
| ListFormat.PrintedCanonical | jb/cpu_set.cpp:55-73 | The text printed is the one of that list of ranges. |
| PrintedText.PrintedPieces | jb/cpu_set.cpp:55-73 | The comma-separated pieces of the printed text are those of the ranges in order: one number for a single cpu below the last one, two numbers and a dash for any other range. |
| PrintedText.PrintedRange | jb/cpu_set.cpp:58-71 | A set of consecutive cpus is printed as one number if it is a single cpu below the last one, and as lo-hi otherwise. |
| PrintedText.PrintedMarks | jb/cpu_set.cpp:58-71 | The printed text has one dash for every range longer than one cpu or ending at the last one, and one comma less than ranges. |
| PrintedText.DecimalCanonical | jb/cpu_set.cpp:62-68 | A number is printed without leading zeros, and every digit text of that value without leading zeros is the one printed. |
| PrintedText.DigitPlaces | jb/strtonum.hpp:39-55 | A digit is one of the ten characters 0 to 9 and its value is its place among them. |
| PrintedText.BlankCharacters | jb/strtonum.hpp:39-55 | The blanks skipped before a number are the six of the C locale. |
| ListFormat.TextOfRanges | jb/cpu_set.cpp:24-53 | Reading any list of ranges, ordered or overlapping or not, adds every range. |
| ListFormat.ParserUndoesPrinter | jb/cpu_set.cpp:24-73 | For every capacity and every set, parsing what is printed succeeds and gives the set. |
| ListFormat.ParsePrintParse | jb/cpu_set.cpp:24-73 | Printing an accepted text and reading that again gives the same set. |
| ListFormat.PrinterIsInjective | jb/cpu_set.cpp:55-73 | Sets of one capacity that are printed alike are equal. |
| ListFormat.TrailingComma | jb/cpu_set.cpp:28-29 | A comma at the end of a text is accepted and ignored. |
| AcceptedText.NumberText | jb/strtonum.hpp:39-55 | The texts read as numbers are exactly blanks, perhaps a sign, and digits, in the range of int. |
| AcceptedText.PiecesExist | jb/cpu_set.cpp:27-29 | Every text splits into pieces without commas, the last one perhaps not followed by a comma. |
| AcceptedText.ElementMeans | jb/cpu_set.cpp:30-49 | One piece is accepted if and only if it is a number below the capacity, or lo-hi with lo <= hi + 1 and hi below the capacity; exactly the cpus it names are added. |
| AcceptedText.TextMeans | jb/cpu_set.cpp:27-50 | The loop accepts exactly the texts whose pieces are all accepted, and adds the union of the pieces. |
| AcceptedText.ParsedMeans | jb/cpu_set.cpp:24-53 | parse succeeds if and only if every piece is accepted, and its set is the union of the pieces. |
| AcceptedText.ElementRefused | jb/cpu_set.cpp:30-48 | A piece is an invalid argument if and only if it is no number or range, out of range if and only if an end is negative or the high end is not below the capacity, and otherwise refused only with reversed ends. |
| AcceptedText.FirstRefused | jb/cpu_set.cpp:27-50 | The exception for a text is the one for its first refused piece. |
| AcceptedText.EmptyText | jb/cpu_set.cpp:27-29 | The empty text is the empty set. |
| AcceptedText.BlanksAndSign | jb/strtonum.hpp:39-55 | Blanks and a plus sign before a number are accepted. |
| AcceptedText.EmptyRange | jb/cpu_set.cpp:8-14 | A range whose low end is one above its high end is accepted and names no cpu. |
| CpuSet.CpuSet.constructor | jb/cpu_set.hpp:39-42 | A new set is empty. |
| CpuSet.CpuSet.Add | jb/cpu_set.hpp:66-70 | Adds exactly the cpu, or throws and changes nothing when out of range. |
| CpuSet.CpuSet.Remove | jb/cpu_set.hpp:73-77 | Removes exactly the cpu, or throws and changes nothing when out of range. |
| CpuSet.CpuSet.AddAll | jb/cpu_set.cpp:8-14 | Adds exactly the range, or throws and changes nothing when an end is out of range. |
| CpuSet.CpuSet.RemoveAll | jb/cpu_set.cpp:16-22 | Removes exactly the range, or throws and changes nothing when an end is out of range. |
| CpuSet.CpuSet.And | jb/cpu_set.hpp:89-91 | After it a cpu is in the set exactly if it was in both; the two sets may be one object. |
| CpuSet.CpuSet.Or | jb/cpu_set.hpp:92-94 | After it a cpu is in the set exactly if it was in either. |
| CpuSet.CpuSet.Xor | jb/cpu_set.hpp:95-97 | After it a cpu is in the set exactly if it was in one of the two. |
| CpuSet.CpuSet.AsListFormat | jb/cpu_set.cpp:55-73 | The printing loop gives the text of the set's runs; a run touching the last cpu is always printed as lo-hi. |
| CpuSet.CpuSet.Parse | jb/cpu_set.cpp:24-53 | The reading loop returns the set or throws as specified. |
| CpuSet.CpuSet.ParseElement | jb/cpu_set.cpp:30-49 | One element adds one cpu or one range, or throws and changes nothing. |
| P2Ceil.SmearReach | jb/p2ceil.hpp:17-22 | After the shifts up to 2^(k-1) a bit is set exactly when one of the 2^k bits from it up was. |
| P2Ceil.SmearFills | jb/p2ceil.hpp:34-58 | Smearing sets every bit at or below the highest set bit and no other, for every width 2^k. |
| P2Ceil.SmearValue | jb/p2ceil.hpp:34-58 | The smeared number is one less than a power of two. |
| P2Ceil.CeilCorrect | jb/p2ceil.hpp:34-58 | For every width W = 2^k the result is the least power of two above n if and only if n < 2^(W-1); otherwise it is zero, and for n = 0 it is one. |
| P2Ceil.Overloads | jb/p2ceil.hpp:34-93 | The four overloads are the widths 8, 16, 32 and 64. |
| P2Ceil.P2Ceil64Correct | jb/p2ceil.hpp:34-58 | Correct exactly below 2^63. |
| P2Ceil.P2Ceil32Correct | jb/p2ceil.hpp:66-72 | Correct exactly below 2^31. |
| P2Ceil.P2Ceil16Correct | jb/p2ceil.hpp:80-83 | Correct exactly below 2^15. |
| P2Ceil.P2Ceil8Correct | jb/p2ceil.hpp:91-93 | Correct exactly below 2^7. |
| Dispatcher.CountsOne | jb/ehs/request_dispatcher.cpp:146-170 | Counting a response adds one to its class and to the total, and to nothing else. |
| Dispatcher.ClassDecidesCounter | jb/ehs/request_dispatcher.cpp:146-170 | Listed status codes 100-199, 200-299, 300-399, 400-499 and 500-599 each add one to their own counter, and all other codes to the invalid one. |
| Dispatcher.Dispatcher.constructor | jb/ehs/request_dispatcher.cpp:9-33 | No handler, all counters zero. |
| Dispatcher.Dispatcher.AddHandler | jb/ehs/request_dispatcher.cpp:35-42 | Throws exactly for a registered path; the first handler of a path stays, and no other path changes. |
| Dispatcher.Dispatcher.Process | jb/ehs/request_dispatcher.cpp:44-61 | There is one response: 404 without a handler, 500 when it throws, otherwise the handler's; and exactly one counter grows, the one for the hundreds of the status code, or the invalid one for a code that is not listed. |
| Dispatcher.Dispatcher.NotFound | jb/ehs/request_dispatcher.cpp:124-134 | The 404 response with its headers and body, counted once as a client error. |
| Dispatcher.Dispatcher.InternalError | jb/ehs/request_dispatcher.cpp:113-122 | The 500 response with its headers and body, counted once as a server error. |
| Dispatcher.Dispatcher.UpdateResponseCounter | jb/ehs/request_dispatcher.cpp:146-170 | Exactly the counter for the hundreds of the status code grows, or the invalid one for a code that is not listed. |
| Server.InitialInvariant | jb/ehs/acceptor.cpp:8-24 | The invariant holds with one pending accept. |
| Server.StepKeepsOperations | jb/ehs/connection.cpp:24-59 | Every step keeps exactly one pending operation for an idle acceptor and for each reading or writing connection. |
| Server.StepKeepsHeld | jb/ehs/acceptor.cpp:43-48 | Every step keeps that the acceptor holds a live connection until it is counted. |
| Server.StepKeepsBalance | jb/ehs/connection.cpp:8-59 | Every step keeps the equations between the counters and the phases of the connections. |
| Server.RunKeepsInvariant | jb/ehs/connection.cpp:8-59 | The invariant holds in every state of every interleaving. |
| Server.Conservation | jb/ehs/connection.cpp:8-59 | In every reachable state opened minus closed is the number of live connections, reads minus responses the number of requests being handled, read errors minus closed the failed connections not yet destroyed. |
| Server.QuietBalance | jb/ehs/connection.cpp:31-59 | Between callbacks opened equals accepted, closed equals read errors, and reads equal responses. |
| Server.OnePendingOperation | jb/ehs/connection.cpp:24-59 | Every connection has at most one pending operation, a closed one none, and the acceptor at most one. |
| Server.StoppedForever | jb/ehs/acceptor.cpp:31-39 | Once the acceptor has seen the shutdown, no accept is scheduled and no connection opened again. |
| Server.ShutdownAdmitsNone | jb/ehs/acceptor.cpp:26-64 | After a shutdown only an accept that had already succeeded still opens a connection. |
| Server.AlwaysEnabled | jb/ehs/connection.cpp:24-59 | Until the acceptor has stopped and every connection is closed, some step other than a shutdown is possible. |
| ServerHistory.RunReports | jb/ehs/connection.cpp:31-59 | Over every interleaving each counter is the number of its events: connections opened and destroyed, reads that succeeded and failed, responses of each class, writes that failed, accepts counted, failed, and completed after the shutdown. |
| ServerHistory.RunOfConnection | jb/ehs/connection.cpp:8-59 | Over every interleaving, each connection's reads, responses, writes and next reads follow one another, so that its place is decided by the numbers of its own events; a failed write is followed by a read like any other, a failed read by the end. |
| ServerHistory.RunOfAcceptor | jb/ehs/acceptor.cpp:26-64 | Over every interleaving the acceptor's place is decided by the numbers of its events: early accepts construct a connection or count an error, are counted, released and rearmed; an accept after the shutdown stops it; only a shutdown closes it. |
| ServerHistory.AddedConnections | jb/ehs/connection.cpp:17-58 | One event adds to the connection counters what it reports. |
| ServerHistory.AddedAccepts | jb/ehs/acceptor.cpp:31-59 | One event adds to the accept counters what it reports. |

## Left out

- The ITCH-5 decoders, order books and MoldUDP code: their logic is in headers that are not part of this model.
- FFT and OpenCL wrappers, threads, logging, files, the command line, time formatting, `fixed_string`: foreign calls or easy facts.
- `offline_feed_statistics` and the remaining members of `cpu_set`, `histogram` and `config_object` (`count`, `status`, `reset`, getters, validation, command-line values): compositions or one-line accessors.
- Floating-point rounding of the interpolation, and `double` summaries.
- Wrap-around of counters, and of the 64-bit sum of rates; the narrowing of `repeats` to the histogram's counter type; negative weights of a signed counter type.
- Histogram.Histogram.EstimatedMean: models the final division for 64-bit sample types; narrower ones convert the quotient once more, and overflow of the accumulated total is not modelled.
- Mean.QuotientExact: the same 64-bit types; a narrower type keeps the low bits of the quotient, which can be right again.
- Mean.MeanQuotientExact: the same 64-bit types.
- RateHistogram.RateHistogram.RecordEvent: requires that the number of events fits the 64-bit rate.
- Histogram.Histogram.WeightedSample: takes a sample within the limits of the sample type and a weight that is not negative.
- CpuSet.CpuSet.AddAll: a low end above the high end plus one is not rejected by the original and runs its loop past the end of `int`, which is undefined; the model stops with an outcome of its own.
- CpuSet.CpuSet.RemoveAll: the same holds for removing a range.
- CpuSet.CpuSet.Parse: the same outcome is reported for such a range in a text.
- CpuSet.CpuSet.ParseElement: the same outcome is reported for such a range.
- AcceptedText.ElementMeans: counts such a range as refused, where the original's loop is undefined.
- AcceptedText.TextMeans: the same.
- AcceptedText.ParsedMeans: the same.
- AcceptedText.ElementRefused: has an exception of its own for such a range.
- AcceptedText.FirstRefused: the same.
- ListFormat.ParserUndoesPrinter: the capacity is at most the greatest `int`, because cpus are numbered by `int`.
- Stream operators of `cpu_set`, which split at blanks first.
- Duplicate keys, anchors and tags of YAML documents. yaml-cpp remembers as what kind an entry was accessed even while it stays undefined; merging another kind into it later is not modelled (it needs incompatible sources).
- YamlNode.YamlNode.MergeNode: a map merged into a sequence, a sequence into a map and a container into a scalar are taken to throw, where yaml-cpp may convert or index the target; for compatible trees the condition is exact.
- YamlNode.YamlNode.MergeMap: the same holds for a target that is a sequence.
- YamlNode.YamlNode.MergeSequences: the same holds for a target that is a map.
- Yaml.MergeRightBiased: compares leaves and lengths at paths; null nodes and empty containers are not told apart from missing ones.
- Yaml.MergeThrows: is stated for compatible trees only; what yaml-cpp does with mixed kinds is not part of this model.
- Yaml.MergedKind: a container merged into a node of another kind is taken to throw, as above.
- PrintedText.BlankCharacters: locales other than C are not modelled.
- Faults.ApplyThrows: a scalar that does not convert to the leaf's type throws in the original and not here; class overrides of mixed kinds are taken not to merge, as above.
- Faults.LoadThrows: the same.
- Yaml.MergeSucceeds: a condition that is easy to check; the exact one is in `MergeThrows`.
- Overrides.ApplyOverrides: a leaf takes any scalar, so conversions that throw are not covered; after an exception the partly changed configuration is not described.
- Overrides.Load: the same.
- ConfigNode.FromValue: configuration classes are described by a schema; user-defined copy and move operations of configuration objects are not modelled.
- Overrides.MergeScope: the map from class names to nodes is held as the entries of one node, and the order of the loop over keys is arbitrary.
- Config.Applied: leaves take any scalar text; conversions to numbers, vectors and pairs, which may throw, are not modelled.
- Precedence.ClassPrecedence: the general order for nested classes and lists is the resolver's; this spells it out for one enclosing map.
- Dispatcher.Dispatcher.UpdateResponseCounter: which status codes the HTTP library lists is a parameter; codes outside it count as invalid.
- Dispatcher.Dispatcher.Process: handlers are functions from requests to a status, a content type and a body, or an exception; other headers and the metrics text are not modelled, and the mutex is not needed.
- Server.RunKeepsInvariant: sockets, strands, HTTP parsing and allocation failure are outcomes of steps; a callback that throws is not modelled.
- Whether a pending operation ever completes: the machine says what may happen, not that it does.
