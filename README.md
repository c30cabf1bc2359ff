# Compressed-stream metrics, modelled in Dafny

The repository simulates a stream of compressed camera frames, either RGB images or
time-of-flight depth maps. A producer encodes frames at a fixed rate and publishes each
one, stamped with its send time in nanoseconds, on a bus. Three buses exist:

- an in-process bounded queue;
- a ZMQ PUB/SUB pair;
- a ROS 2 topic, used by the ROS 2 demo.

A consumer takes packets off the bus and records one latency per packet. `StreamStats`
counts transmissions, receptions and payload bytes. Its summary reports loss, megabytes,
median, 95th-percentile and mean latency. That summary can be written as Prometheus
gauges. A latency histogram can be written as CSV rows or as Prometheus cumulative
buckets. An optional decorator drops packets and delays delivery on receive, to imitate a
bad network.

The project has one module per source file:

- `Common`: shared values (`Option`, `Result`, bytes, `Packet`, Python's `max(0.0, x)`
  and `int(x)`).
- `Decimal`: `str(i)` and `int(s)` for integer numerals.
- `Sorting`: `sorted(...)` on reals.
- `Metrics`: `quantile`, median, mean, the summary and the `StreamStats` class.
- `Memory`: `MemoryBus`, a class over a `seq` with `maxlen` eviction.
- `Impair`: `ImpairedBus`; its random draws and its sleep are values.
- `BusFactory`: `make_bus`.
- `Zmq`: the ZMQ multipart framing and poll timeout.
- `Encoders`: the `(kind, codec)` encoder table.
- `Cli`: the producer and consumer loops as methods over a `MemoryBus`.
- `PromExport`: summary gauges.
- `HistExport`: the histogram exports.
- `Ros2Demo`: the `Pub` and `Sub` nodes and the stamp split.

Clocks, randomness, the frame generator and the codecs are not computed; they are
parameters:

- A clock becomes a sequence of readings.
- A random draw becomes a real argument.
- The frame generator and the codec become function parameters `render` and `encode`.
- Float printing becomes a function parameter `showReal`.

Files are not written. An export returns the rows, lines or text it would write.

## Model

| member | source | states |
|---|---|---|
| Common.Max0 | src/stream_metrics/transports/impair.py:16-18 | `max(0.0, x)` is non-negative, at least `x`, `x` itself when `x >= 0` and 0 otherwise |
| Common.Trunc | src/stream_metrics/metrics.py:41 | Python's `int(pos)` truncates toward zero: the result lies within one unit of `pos`, on the side of zero |
| Decimal.FormatInt | src/stream_metrics/transports/zmq_bus.py:28 | `str(ts_ns)` is a non-empty run of digits, with a leading `-` only at position 0 |
| Decimal.FormatNat | src/stream_metrics/transports/zmq_bus.py:28 | `str(n)` of a natural number is a non-empty run of digits with no leading zero except for 0 itself; Decimal.DigitsOfFormatNat states its value |
| Decimal.ParseInt | src/stream_metrics/transports/zmq_bus.py:36 | `int(...)` of the empty text fails; a text is accepted only as a sign or digit followed by digits; a negative value needs a leading `-`, and a leading `-` never gives a positive value |
| Decimal.DigitsOfFormatNat | src/stream_metrics/transports/zmq_bus.py:28 | the digits `str` writes for a natural number have that number as their value |
| Decimal.ParseFormatInt | src/stream_metrics/transports/zmq_bus.py:28 | `int(str(i)) == i` for every integer, negative ones included |
| Decimal.FormatIntInjective | src/stream_metrics/transports/zmq_bus.py:28 | two different timestamps never produce the same numeral |
| Sorting.Insert | src/stream_metrics/metrics.py:37 | inserting into sorted data keeps it sorted, adds exactly one occurrence of the new value and invents nothing |
| Sorting.Sort | src/stream_metrics/metrics.py:37 | `sorted(data)` is ascending, has the same length and is a permutation of its input |
| Sorting.SortedUnique | src/stream_metrics/metrics.py:37 | two sorted permutations of the same multiset are equal, so the sorted list is the only possible one |
| Sorting.SortPermutation | src/stream_metrics/metrics.py:37 | rearranging the data does not change what `sorted` returns |
| Sorting.SortOfSorted | src/stream_metrics/metrics.py:37 | sorting data that is already sorted leaves it unchanged |
| Sorting.SortEnds | src/stream_metrics/metrics.py:37 | the first and last sorted elements belong to the data and bound all of it |
| Metrics.Interpolation | src/stream_metrics/metrics.py:40-42 | `lower`, `upper` and `frac` are valid indices and a fraction in [0, 1); `lower + frac` is exactly `pos`; `upper` is `lower` or the next index, and the next index whenever `frac > 0` |
| Metrics.InterpolationAt | src/stream_metrics/metrics.py:40-42 | any index and fraction that split `pos` are the ones the quantile uses, with `upper = min(lower + 1, n - 1)` |
| Metrics.InterpolationAtEnd | src/stream_metrics/metrics.py:40-42 | at `q = 1` both indices are the last one and the fraction is 0 |
| Metrics.Quantile | src/stream_metrics/metrics.py:36-39 | the quantile of no data is 0.0 |
| Metrics.LerpBetween | src/stream_metrics/metrics.py:43 | `a * (1 - f) + b * f` lies between `a` and `b` for `f` in [0, 1] |
| Metrics.QuantileWithin | src/stream_metrics/metrics.py:36-43 | every quantile lies between the minimum and the maximum of the data |
| Metrics.QuantileEnds | src/stream_metrics/metrics.py:36-43 | the 0-quantile is the minimum and the 1-quantile the maximum |
| Metrics.QuantileAtZero | src/stream_metrics/metrics.py:36-43 | the 0-quantile of the data is its minimum |
| Metrics.QuantileAtOne | src/stream_metrics/metrics.py:36-43 | the 1-quantile of the data is its maximum |
| Metrics.QuantileSingle | src/stream_metrics/metrics.py:36-43 | every quantile of a single value is that value |
| Metrics.QuantilePermutation | src/stream_metrics/metrics.py:36-43 | the quantile depends only on the multiset of the data, not its order |
| Metrics.OneToTenSorted | tests/test_quantile.py:3 | the list 1..10 of the unit test is already sorted |
| Metrics.QuantileOneToTenHalf | tests/test_quantile.py:4 | the median of 1..10 is exactly 5.5 |
| Metrics.QuantileOneToTenP95 | tests/test_quantile.py:5 | the 0.95-quantile of 1..10 is exactly 9.55 over the reals |
| Metrics.MedianIsHalfQuantile | src/stream_metrics/metrics.py:31 | `statistics.median` (the middle value, or the mean of the two middle values) equals `quantile(lat, 0.5)` |
| Metrics.SumBounds | src/stream_metrics/metrics.py:33 | a sum of values in [lo, hi] lies between `n * lo` and `n * hi` |
| Metrics.MeanWithin | src/stream_metrics/metrics.py:33 | the mean lies between the minimum and the maximum of the latencies |
| Metrics.MeanConstant | tests/test_metrics.py:12-13 | the mean of equal latencies is that latency |
| Metrics.LossPct | src/stream_metrics/metrics.py:21-23 | the loss is in [0, 100]; it is 0 with nothing sent; it is `100 * (tx - rx) / tx` when no more were received than sent; it is 0 exactly when nothing was sent or nothing was lost |
| Metrics.MedianOrNone | src/stream_metrics/metrics.py:31 | the median is absent exactly when there are no latencies, and otherwise it is the 0.5-quantile |
| Metrics.P95OrNone | src/stream_metrics/metrics.py:32 | the 95th percentile is absent exactly when there are fewer than 5 latencies, and otherwise it is the 0.95-quantile |
| Metrics.MeanOrNone | src/stream_metrics/metrics.py:33 | the mean is absent exactly when there are no latencies, and otherwise it is their mean |
| Metrics.Mebibytes | src/stream_metrics/metrics.py:30 | megabytes times 1024 * 1024 give back the byte count |
| Metrics.Summarize | src/stream_metrics/metrics.py:20-34 | the summary passes the counts through; the loss is `LossPct` and lies in [0, 100]; the megabytes convert back to the bytes; p50 and mean are absent iff there are no latencies and p95 iff fewer than 5; present values are the 0.5-quantile, the 0.95-quantile and the mean |
| Metrics.StreamStats.constructor | src/stream_metrics/metrics.py:5-10 | a new `StreamStats` has both counts, the byte count and the latency list at zero or empty |
| Metrics.StreamStats.RecordTx | src/stream_metrics/metrics.py:12-14 | one more transmission and `nbytes` more bytes; the receive side is unchanged |
| Metrics.StreamStats.RecordRx | src/stream_metrics/metrics.py:16-18 | one more reception and the latency appended at the end; the transmit side is unchanged |
| Metrics.StreamStats.Summary | src/stream_metrics/metrics.py:20-34 | `summary()` reports the counters and the loss; with one latency per reception (`Valid`), p50 and mean are absent iff nothing arrived and p95 iff fewer than 5 packets arrived |
| Metrics.Median | src/stream_metrics/metrics.py:31 | `statistics.median` lies between the least and the greatest latency; Metrics.MedianIsHalfQuantile equates it with the 0.5-quantile |
| Metrics.Mean | src/stream_metrics/metrics.py:33 | `statistics.fmean` times the count is the sum; Metrics.MeanWithin bounds it by the minimum and maximum |
| Metrics.Lerp | src/stream_metrics/metrics.py:43 | `a * (1 - f) + b * f`; stated by Metrics.LerpBetween and Metrics.LerpExact |
| Metrics.LerpExact | src/stream_metrics/metrics.py:43 | a zero fraction gives exactly the lower sample |
| Metrics.SortedQuantile | src/stream_metrics/metrics.py:38-43 | the interpolation on the sorted copy; stated by Metrics.QuantileWithin, Metrics.QuantileEnds and Metrics.QuantileSingle |
| Metrics.BasicScenario | tests/test_metrics.py:3-13 | ten 1000-byte transmissions and eight 5 ms receptions give tx 10, rx 8, loss 20.0, mean 5.0 and p95 5.0 |
| Memory.Last | src/stream_metrics/transports/memory_bus.py:13 | the newest `n` packets, or all of them when there are fewer |
| Memory.Appended | src/stream_metrics/transports/memory_bus.py:18 | `deque.append` with `maxlen` appends at the tail and, when full, evicts the head; the length never exceeds `maxlen` |
| Memory.PublishAllKeepsLast | src/stream_metrics/transports/memory_bus.py:12-19 | after any sequence of publishes the queue holds exactly the newest `maxlen` packets, in publish order |
| Memory.MemoryBus.constructor | src/stream_metrics/transports/memory_bus.py:12-14 | a new bus is empty and holds the given bound, 1024 by default |
| Memory.MemoryBus.Publish | src/stream_metrics/transports/memory_bus.py:16-19 | the new queue is the old one with the packet appended, bounded by `maxlen` |
| Memory.MemoryBus.Subscribe | src/stream_metrics/transports/memory_bus.py:21-25 | an empty queue gives `None` and stays empty; otherwise the head is returned and removed |
| Memory.Filled | src/stream_metrics/transports/memory_bus.py:12-19 | a fresh bus of capacity `n` fed `ps` holds the last `n` packets of `ps` |
| Memory.Drain | src/stream_metrics/transports/memory_bus.py:21-25 | `k` subscribes return the first `k` queued packets in FIFO order and remove exactly those |
| Memory.OverflowScenario | src/stream_metrics/transports/memory_bus.py:12-25 | after overfilling a bus of capacity `n`, subscribing returns the newest `n` packets in publish order, then `None` |
| Impair.Decide | src/stream_metrics/transports/impair.py:23-34 | no inner packet gives nothing and no sleep; a packet is dropped iff the drop percentage is positive and the draw falls under it; a delivered packet is the inner one, unchanged; sleep happens only for a positive `latency + gauss` (gauss counted only with jitter), and never without latency or jitter |
| Impair.ImpairedBus.constructor | src/stream_metrics/transports/impair.py:14-18 | the stored latency, jitter and drop percentage are the arguments clamped at 0 |
| Impair.ImpairedBus.Publish | src/stream_metrics/transports/impair.py:20-21 | publishing goes straight to the inner bus, unimpaired |
| Impair.ImpairedBus.Subscribe | src/stream_metrics/transports/impair.py:23-34 | the inner bus is read once, and its result passes through `Decide` with the stored parameters |
| BusFactory.MakeBus | src/stream_metrics/transports/bus_factory.py:9-19 | an error exactly for an unknown kind or zmq without pyzmq, with the source's exception and message; memory and zmq bases are built as asked; the base is wrapped iff some impairment parameter is positive, and the wrapper carries those parameters |
| BusFactory.UnwrappedMeansUnimpaired | src/stream_metrics/transports/bus_factory.py:18-19 | when the factory does not wrap, the wrapper would have changed nothing anyway |
| Zmq.AsciiEncode | src/stream_metrics/transports/zmq_bus.py:28 | `.encode("ascii")` maps each character to its code, one byte each |
| Zmq.AsciiDecode | src/stream_metrics/transports/zmq_bus.py:36 | `.decode("ascii")` fails iff some byte is 128 or more, and otherwise maps bytes to characters one for one |
| Zmq.DecodeEncode | src/stream_metrics/transports/zmq_bus.py:28 | ASCII decoding undoes ASCII encoding |
| Zmq.FormatIntAscii | src/stream_metrics/transports/zmq_bus.py:28 | the timestamp numeral is ASCII, so encoding it cannot fail |
| Zmq.PublishFrames | src/stream_metrics/transports/zmq_bus.py:26-28 | three frames: an empty topic, the ASCII numeral of the timestamp, and the payload |
| Zmq.Unframe | src/stream_metrics/transports/zmq_bus.py:35-36 | a message that is not three frames fails to unpack; a decoded packet carries the third frame as payload |
| Zmq.FramingRoundTrip | src/stream_metrics/transports/zmq_bus.py:26-36 | what `publish` sends is decoded back to the same timestamp and payload |
| Zmq.TimeoutMs | src/stream_metrics/transports/zmq_bus.py:31 | the poll timeout is never negative; it is 0 for no timeout or a non-positive one, and otherwise the timeout in whole milliseconds, truncated |
| Zmq.Subscribe | src/stream_metrics/transports/zmq_bus.py:30-36 | with no poll event nothing is received and the inbox is untouched; with one, exactly one message is consumed |
| Zmq.PublishThenSubscribe | src/stream_metrics/transports/zmq_bus.py:26-36 | a published message reaches the subscriber as the packet that was published |
| Encoders.Lookup | src/stream_metrics/cli.py:15-19 | exactly the three supported `(kind, codec)` pairs have an encoder, each with its quality or level, and the encoder always consumes the frame kind the producer renders |
| Cli.Target | src/stream_metrics/cli.py:30 | `next_t = t0 + idx * period`; its properties are stated by Cli.TargetStep and Cli.TargetIncreasing |
| Cli.TargetStep | src/stream_metrics/cli.py:30 | consecutive aim points are exactly one period apart, whatever earlier iterations slept, so the pacing does not drift |
| Cli.TargetIncreasing | src/stream_metrics/cli.py:20-30 | for a positive rate the aim points strictly increase |
| Cli.LatencyMs | src/stream_metrics/cli.py:42 | the latency in ms times 10^6 is the nanosecond transit time, and it is non-negative when the packet was stamped no later than received |
| Cli.SleepFor | src/stream_metrics/cli.py:31-33 | the producer sleeps iff time is left before the target, and then for exactly that long |
| Cli.Packets | src/stream_metrics/cli.py:27 | the packets published are those of the ticks, in order |
| Cli.TicksSnoc | src/stream_metrics/cli.py:27-28 | one more tick adds its packet and its payload size |
| Cli.PublishAndRecord | src/stream_metrics/cli.py:27-28 | one publish appends the packet to the bus and counts one transmission of its size |
| Cli.ProduceOne | src/stream_metrics/cli.py:24-33 | one iteration publishes frame `idx` encoded and stamped, counts it, aims at the next period boundary and sleeps only for the time left |
| Cli.RunProducer | src/stream_metrics/cli.py:21-33 | the loop runs while the clock is before the deadline; iteration `j` publishes frame `j`; counts, bytes and queue contents are those of all ticks; the receive side is untouched |
| Cli.Producer | src/stream_metrics/cli.py:14-33 | an unsupported pair raises `KeyError`; otherwise a zero rate raises `ZeroDivisionError`; errors change nothing; otherwise the result is `RunProducer`'s with the table's encoder and period `1 / hz` |
| Cli.Latencies | src/stream_metrics/cli.py:41-43 | one latency per received packet |
| Cli.LatenciesAt | src/stream_metrics/cli.py:41-43 | the `j`-th latency is `(now_j - ts_ns) / 1e6` of the `j`-th packet |
| Cli.ReceivedSnoc | src/stream_metrics/cli.py:38-43 | receiving the next queued packet extends both the received prefix and the latencies by one |
| Cli.ReceiveAndRecord | src/stream_metrics/cli.py:38-43 | a subscribe that yields a packet records exactly its latency; an empty one records nothing; the transmit side is untouched |
| Cli.Consumer | src/stream_metrics/cli.py:35-43 | the loop runs while before the deadline; it receives a FIFO prefix of the queue, one packet per iteration while packets remain, and records their latencies in order |
| PromExport.Underscored | src/stream_metrics/exporters/prom_export.py:8 | `.replace(".", "_")` keeps the length and turns each dot, and only the dots, into an underscore |
| PromExport.UnderscoredConcat | src/stream_metrics/exporters/prom_export.py:8 | replacing dots commutes with concatenation, so the `stream_` prefix is never altered |
| PromExport.MetricName | src/stream_metrics/exporters/prom_export.py:8 | the metric name is `stream_` plus the key with dots replaced, and it contains no dot |
| PromExport.Present | src/stream_metrics/exporters/prom_export.py:5-7 | the entries kept all have a value |
| PromExport.AllPresent | src/stream_metrics/exporters/prom_export.py:5-7 | when every entry has a value, nothing is skipped |
| PromExport.GaugeLinesShape | src/stream_metrics/exporters/prom_export.py:4-10 | two lines per non-`None` entry, in order: `# TYPE <metric> gauge` then `<metric> <value>`; `None` entries produce nothing |
| PromExport.GaugeLines | src/stream_metrics/exporters/prom_export.py:4-10 | the lines the loop appends; their shape is stated by PromExport.GaugeLinesShape |
| PromExport.JoinTerminated | src/stream_metrics/exporters/prom_export.py:11 | `"\n".join(lines) + "\n"` ends every line with a newline, and is a lone newline when there are no lines |
| PromExport.FormatPrometheus | src/stream_metrics/exporters/prom_export.py:3-11 | the loop's text is the joined gauge lines plus a final newline |
| PromExport.SummaryPresent | src/stream_metrics/metrics.py:25-34 | the five counters are always present, plus one entry per latency statistic that is not `None` |
| PromExport.SummaryEntries | src/stream_metrics/metrics.py:25-34 | the summary dictionary's eight keys in insertion order; PromExport.SummaryPresent and PromExport.SummaryLineCount state what is exported from it |
| PromExport.SummaryLineCount | src/stream_metrics/exporters/prom_export.py:4-10 | a summary exports 10 lines with no latencies, 14 with fewer than 5 and 16 otherwise |
| HistExport.SetMinExists | src/stream_metrics/exporters/hist_export.py:9 | every non-empty set of latencies has a least element |
| HistExport.SortedKeys | src/stream_metrics/exporters/hist_export.py:9 | the sorted keys list as many keys as the histogram has, all of them keys of the histogram |
| HistExport.SortedKeysHead | src/stream_metrics/exporters/hist_export.py:9 | the sorted keys start with the least key, then sort the rest |
| HistExport.SortedKeysSpec | src/stream_metrics/exporters/hist_export.py:9 | the sorted keys are strictly ascending and contain every key |
| HistExport.MapTotalRemove | src/stream_metrics/exporters/hist_export.py:14 | `sum(hist.values())` splits as any one count plus the total of the rest, so the total does not depend on iteration order |
| HistExport.MapTotal | src/stream_metrics/exporters/hist_export.py:14 | `sum(hist.values())`; HistExport.MapTotalRemove and HistExport.KeySumTotal state that it is the order-independent total |
| HistExport.KeySumAgree | src/stream_metrics/exporters/hist_export.py:17-18 | the running sum depends only on the counts of the keys visited |
| HistExport.KeySumTotal | src/stream_metrics/exporters/hist_export.py:14-18 | summing the counts over any duplicate-free key list that covers the histogram gives the total |
| HistExport.NextKey | src/stream_metrics/exporters/hist_export.py:9 | taking the least remaining key extends the sorted prefix by one |
| HistExport.AscendingKeys | src/stream_metrics/exporters/hist_export.py:9 | the loop yields the keys in ascending order |
| HistExport.WriteHistogram | src/stream_metrics/exporters/hist_export.py:4-10 | the header `latency_ms,count`, then one row per key in ascending order, holding that key's count |
| HistExport.Buckets | src/stream_metrics/exporters/hist_export.py:15-19 | one bucket line per key |
| HistExport.BucketsAt | src/stream_metrics/exporters/hist_export.py:15-19 | bucket `i` has the `i`-th key as `le` and the sum of the counts up to and including it |
| HistExport.PromLinesShape | src/stream_metrics/exporters/hist_export.py:12-21 | one bucket per key in ascending order, carrying the cumulative count so far; then `+Inf` and `_count` lines, both with the total |
| HistExport.PromLines | src/stream_metrics/exporters/hist_export.py:12-21 | the lines the file receives; HistExport.PromLinesShape, HistExport.CumulativeMonotone and HistExport.LastBucketIsTotal state their content |
| HistExport.PromBucketsAscending | src/stream_metrics/exporters/hist_export.py:17-19 | the `le` bounds of the buckets strictly increase |
| HistExport.KeySumMonotone | src/stream_metrics/exporters/hist_export.py:17-18 | with non-negative counts, a longer prefix never has a smaller running sum |
| HistExport.BucketsMonotone | src/stream_metrics/exporters/hist_export.py:17-19 | with non-negative counts, bucket values never decrease |
| HistExport.CumulativeMonotone | src/stream_metrics/exporters/hist_export.py:15-19 | with non-negative counts, the cumulative counts of the exported buckets never decrease |
| HistExport.BucketsEndInTotal | src/stream_metrics/exporters/hist_export.py:14-19 | over a duplicate-free key list that covers the histogram, the last bucket carries the total |
| HistExport.LastBucketIsTotal | src/stream_metrics/exporters/hist_export.py:14-21 | in a non-empty histogram the last finite bucket equals the `+Inf` total |
| HistExport.Total | src/stream_metrics/exporters/hist_export.py:14 | the loop computes `sum(hist.values())` |
| HistExport.BucketsSnoc | src/stream_metrics/exporters/hist_export.py:17-19 | the next key adds its count to the running sum and appends one bucket |
| HistExport.TextSnoc | src/stream_metrics/exporters/hist_export.py:19 | writing one more line appends exactly that line's text |
| HistExport.EmitBuckets | src/stream_metrics/exporters/hist_export.py:17-19 | the loop writes the cumulative bucket lines and their text |
| HistExport.EmitSamples | src/stream_metrics/exporters/hist_export.py:17-21 | the bucket lines, then the `+Inf` and `_count` lines, all written out |
| HistExport.WritePrometheus | src/stream_metrics/exporters/hist_export.py:12-21 | the file's lines are `PromLines(hist)` and its text is theirs, each line ending in a newline |
| Ros2Demo.ToRosTime | scripts/ros2_demo.py:13-16 | the nanoseconds are in [0, 10^9); `sec * 10^9 + nanosec` gives back the input; the seconds have the input's sign, negative instants included |
| Ros2Demo.StampNs | scripts/ros2_demo.py:69 | `sec * 1_000_000_000 + nanosec`; Ros2Demo.ToRosTime and Ros2Demo.SplitOfStamp state that it inverts the split |
| Ros2Demo.RxLatencyMs | scripts/ros2_demo.py:68-70 | the callback's latency; Ros2Demo.RxLatencyOfStamp states that it is the true transit time |
| Ros2Demo.SplitOfStamp | scripts/ros2_demo.py:13-16 | splitting a reconstructed in-range stamp gives back the same stamp |
| Ros2Demo.StampInjective | scripts/ros2_demo.py:69 | two in-range stamps that reconstruct to the same instant are equal |
| Ros2Demo.RxLatencyOfStamp | scripts/ros2_demo.py:67-70 | the latency computed from the stamp is the true transit time `(t_rx - t_ns) / 1e6` |
| Ros2Demo.Pub.constructor | scripts/ros2_demo.py:19-36 | a new publisher stores its parameters, has sent nothing and has its timer running |
| Ros2Demo.Pub.Tick | scripts/ros2_demo.py:38-50 | called only while the timer is live; at or after `t_end` the timer is stopped and nothing is sent; before it, one message is sent with frame `idx` encoded, the split send stamp and the codec name, and `idx` advances |
| Ros2Demo.NewPub | scripts/ros2_demo.py:19-36 | a zero rate raises `ZeroDivisionError` before an unsupported pair raises `KeyError`; otherwise the node has period `1 / hz`, `t_end = now + seconds` and the table's encoder |
| Ros2Demo.Sub.constructor | scripts/ros2_demo.py:53-56 | the subscriber shares the given stats and stops one second after the publisher's window |
| Ros2Demo.Sub.Cb | scripts/ros2_demo.py:67-72 | each message records one reception with its stamp latency and one transmission of its data size |
| Ros2Demo.Sub.Deliver | scripts/ros2_demo.py:67-72 | delivering `n` messages adds `n` to both counts, their latencies in order and their data bytes |
| Ros2Demo.RxLatencies | scripts/ros2_demo.py:67-71 | one latency per delivered message |
| Ros2Demo.DemoSummary | scripts/ros2_demo.py:99-104 | counting transmissions on the receive side makes tx equal rx, so the demo always reports 0 % loss, whatever was dropped |

## Left out

- Threads and the condition variable are not modelled. `MemoryBus.subscribe` waits on the
  condition variable; in the model nothing arrives during the wait. The cli producer and
  consumer threads are two separate runs.
- The 0.2 s and 1.0 s subscribe timeouts are not modelled, except for their conversion to
  ZMQ poll milliseconds.
- `time.time()`, `time.time_ns()` and `now_ns()` are sequences of readings passed in.
  `time.sleep` is returned as the requested duration.
- `random.random()` and `random.gauss(0, jitter)` are real arguments of `Impair.Decide`.
  Their distributions are not modelled.
- Floats are modelled as exact reals, with no rounding error.
  - Metrics.Summarize: does not round the values to 3 decimals with `round(x, 3)`, because
    float rounding is not modelled.
  - Metrics.QuantileOneToTenP95: states the exact real 9.55. The unit test instead compares
    the float result after `round(..., 1)` with 9.6, and float rounding is not modelled.
- Float and dictionary-value printing (`str(v)`, f-string formatting) is the `showReal`
  parameter. Integers are written with the modelled `str`.
- Metrics.Quantile: `q` is required to lie in [0, 1]. The source accepts any `q`, and
  `int(pos)` truncates toward zero. So for `-1 < pos < 0` it takes `lower = 0` with a
  negative `frac` and extrapolates below the minimum. For `n - 1 < pos < n` it takes
  `lower = upper = n - 1` and returns the maximum. It wraps around through negative
  indices only when `pos <= -1`, and raises `IndexError` once `pos >= n` or `int(pos) < -n`.
  The only call site (metrics.py:32) passes the constant 0.95.
- Metrics.Median and Metrics.Mean require data. `statistics.median` and `fmean` raise on
  empty data, and the summary only calls them on non-empty data.
- Memory.MemoryBus.constructor: takes a `nat` bound. Python's `deque` rejects a negative
  `maxlen`, and `maxlen=None` (unbounded) is never used.
- Impair.ImpairedBus: the inner bus is a `MemoryBus`. A ZMQ bus's receive side is modelled
  separately, as `Zmq.Subscribe`.
- BusFactory.MakeBus: returns a description of the bus it builds, not a live object. The
  ZMQ constructor binds and connects sockets and sleeps 0.1 s, which is not modelled.
- ZMQ sockets, the poller and `recv_multipart` are not modelled. The poll result is a
  boolean and the socket's inbox is a sequence of messages.
- rclpy, QoS profiles, executors, node names, topics, `destroy_timer` and `destroy_node`
  are not modelled. A published ROS message is appended to the publisher's `sent` list.
- The ROS 2 `check_done` timer and `rclpy.shutdown` are not modelled, and neither is the
  0.5 s timer period. The subscriber's `t_end` is stored but nothing acts on it.
- The range checks of the ROS `int32`/`uint32` stamp fields are not modelled.
- Decimal.ParseInt: accepts only an optional `-` or `+` followed by digits. Python's
  `int()` also accepts surrounding whitespace and `_` separators. `str()` never produces
  these, so decoding the source's own frames is unaffected.
- The `main` functions of `cli.py` and `ros2_demo.py` are not modelled. That covers
  argparse, spawning and joining threads, the rich console table and the file write of the
  Prometheus text. What each part contributes is modelled: `StreamStats.Summary`, the
  exporters and the loops.
- `csv_export.write` (the summary CSV) is not part of this model.
- The frame generator (`synthetic_rgb`, `synthetic_tof`) and the codecs
  (`encode_rgb_jpeg`, `encode_rgb_png`, `encode_depth_png16`) are not part of this model.
  They are the `render` and `encode` parameters.
- `encode` is assumed to succeed. The codecs raise `RuntimeError` when `cv2.imencode`
  fails (codec.py:7-8, 13-14 and 21-22). In `cli.py` that ends the producer thread, and
  in `ros2_demo.py` it escapes the timer callback. Cli.Producer, Cli.RunProducer,
  Cli.ProduceOne and Ros2Demo.Pub.Tick do not model that exit.
- HistExport.WriteHistogram and HistExport.WritePrometheus: histogram keys are reals. CSV
  quoting and the file itself are not modelled; the rows and the text are returned.
- `StreamStats.histogram()`, `fps()` and `record_rx(..., now_ms=...)` appear in
  `tests/test_metrics_hist.py` but not in the source, so they are not modelled.
- The scripts `zmq_demo.py`, `zmq_pub.py`, `zmq_sub.py`, `bench.py` and `export_csv.py`
  are not part of this model.
