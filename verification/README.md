# IceFlow in Dafny

IceFlow is a stream-processing library on Named Data Networking. Around its network calls it keeps
state that has to be right under concurrency: a partitioned publish/subscribe protocol with
acknowledgements on a backchannel, a bounded blocking queue, the assignment of partitions to
consumers, the wiring of an application graph, and statistics. This project models that state and
proves what holds of it in every execution.

`dafny verify dfyconfig.toml` checks everything.

## The modules

- `Names`, `Acknowledgements`: number components, topics, prefix matching, store names; the JSON text
  of an acknowledgement.
- `RingBuffers`, `Monitor`: the bounded queue; its critical sections as methods of a class, their
  interleaving by any number of threads as a transition system.
- `Delivery`, `ExactlyOnce`: publish, notify, run callback, acknowledge, erase, repartition, over any
  number of nodes and edges; acknowledgement safety, conservation, exactly-once consumption.
- `Clearance`: an execution to its end, with the item consumed and erased.
- `Stages`: a processing stage over that protocol: what its callbacks owe and what it publishes.
- `PubSub`, `Consumers`, `Producers`, `IceFlows`: the objects of one node instance, updated in place.
- `Refinement`: each of their operations that the protocol depends on, a query of the statistics included,
  is a step, or a short run of steps, of `Delivery`; and their deliveries run as a stage does.
- `SlidingWindow`, `Stats`: what the statistics report, and how they reach the executor.
- `Partitions`: strided lists and half-open ranges with 32-bit arithmetic.
- `Dag`: lookups, upstream edges, wiring, deployments with several instances of a node.
- `WordCount`, `Pipeline`: the word-count application, alone and on top of the delivery protocol.
- `WordCountExample`, `WordCountRuns`: the example as it is wired, and two executions of it.
- `Seqs`, `Wrappers`: permutations of sequences; optional values.

`SVSPubSub` and `boost::circular_buffer` are not part of this model. Of the former it assumes: fresh
subscription handles; one counter of consecutive sequence numbers per node, whatever the topic; each
publication kept in its node's store; each node learns of each publication of another node at most
once, at any time and in any order, and never of its own; it then makes one delivery for each
subscription live at that moment whose name is a prefix of the publication's.

## Where the code departs from its intent

The model follows the code; the lemmas say exactly when the intent is met all the same.

- An acknowledgement carries a sequence number but no producer (src/consumer.cpp:121-127). Stores stay
  safe exactly when no consumer can hear of two producers of its edge
  (`SafeExactlyWithOneForeignProducer`), that is, when no consumer hears from two instances of one
  producing node (`SafeExactlyWhenNotScaledOut`). The word-count example runs two instances of its
  second stage, and so is not safe (`ExampleIsUnsafe`). Where stores are safe, they end up holding exactly the unconsumed
  (`StoresHoldTheUnconsumed`).
- Ages are computed with the wrong sign (src/consumer.cpp:58), so nothing is pruned
  (`WrittenWindowIsHistory`, `WrittenUnitsAreRight`, `WrittenUnitsAreWrong`).
- Choices are made with the constructor's partition count, not the updated one
  (src/producer.cpp:159-161; `ChosenPartitionIsDeclared`).
- Statistics are queried on copies whose destructors drop the originals' subscriptions
  (src/iceflow.cpp:209-211; `GetConsumerStats`). For the protocol that is a repartitioning to nothing of
  every consumer of the node (`Query`, `ClearPath`), so each misses what its node learns of before it is
  repartitioned again (`QueriedConsumersMissItems`).
- Repartitioning two consumers is two steps (src/consumer.cpp:68-80). An item is consumed exactly once
  if and only if its partition was on just one consumer's list, once, when that consumer's own node
  learned of it (`ConsumedOnceExactlyWhenHeldOnce`). While a partition changes hands it is lost if the
  old owner's node learns of it too late and the new one's too early, and doubled if the old owner's is
  early and the new one's late (`HandoverOutcome`); both happen, between states in which every
  partition has one owner (`HandoverLosesItem`, `HandoverDoublesItem`).
- The example passes indices from 1, the literal 2 and the partition count as the inclusive bound
  (examples/wordCount/lines2words/lines2words.cpp:85-86), although its comment describes the general
  rule: partition 0 has no consumer (`ExampleMissesPartitionZero`), and the counts come out right exactly
  when no line with a word was drawn there (`ExampleIsRightExactly`); both happen (`ExampleLosesLine`,
  `ExampleCountsLine`). From 2^32 - 2 partitions on, the second instance's loop never stops
  (`ExampleListsExist`).
- Range bounds the wrong way round are accepted (src/services/node-instance-service.cpp:42-44;
  `InRange`). The strided loop may wrap around (`WrapAround`), and then hand out partitions in falling
  order (`StopsAfterWrapping`) or never stop (`NeverStops`, `StopsExactlyWhenTerminates`).
- The upstream lookup keeps one edge per node (src/dag-parser.cpp:149-158; `UpstreamIsInverse`,
  `WiringIsComplete`).
- Unit counts are narrowed to 32 bits on the way (proto/node-instance.proto:61-70;
  `TrueStatsExactlyBelow32Bits`).

## Model

| member | source | states |
|---|---|---|
| Names.NumberComponentRoundTrip | src/consumer.cpp:131-133 | every 64-bit number is recovered from its component, which has the fewest of 1, 2, 4 or 8 octets that hold it |
| Names.BigEndian | src/consumer.cpp:131-133 | the octets of a number component stand for it with the most significant one first |
| Names.TopicIs | src/producer.cpp:46-55 | a topic is the application's name, the edge id, and the partition number's component or the eleven octets of `backchannel` |
| Names.SeesOnlyItself | src/producer.cpp:46-55 | with one-component edge ids, a subscription sees a channel exactly when it is its own: no two edges, partitions, or backchannels interfere |
| Names.SeesNestedTopics | src/consumer.cpp:35 | for edge ids of any number of components: the only interference is a topic nested in another one's subscription name, and it always happens then |
| Names.StoreNameInjective | src/producer.cpp:78-86 | within a node, store names are equal exactly for equal sequence numbers |
| Names.StoreNameIs | src/producer.cpp:78-86 | a store name is the node's name, then the application's, then one component that decodes to the sequence number |
| Acknowledgements.AcknowledgementRoundTrip | src/consumer.cpp:121-127 | for every 64-bit sequence number, the printed text parses back to it and passes the integer check |
| Acknowledgements.ParsedExactlyWhenWritten | src/producer.cpp:64-77 | a text parses to a number exactly when it is that number in decimal digits without leading zeros, or a negative number down to -2^63 standing for itself plus 2^64, with white space around it and perhaps a byte order mark in front |
| Acknowledgements.DecimalDigits | src/consumer.cpp:124 | digits are decimal, the most significant first |
| Acknowledgements.AcknowledgementErasesItsItem | src/producer.cpp:69-86 | the text for number n names the stored item m of a node exactly when n equals m |
| RingBuffers.RingBuffer.Size | include/iceflow/ringbuffer.hpp:62-66 | the number of elements, at most 10000 |
| RingBuffers.RingBuffer.Empty | include/iceflow/ringbuffer.hpp:98-101 | true exactly for an empty queue |
| RingBuffers.RingBuffer.CopyOf | include/iceflow/ringbuffer.hpp:57-60 | a copy has the same contents and keeps to the capacity |
| RingBuffers.RingBuffer.Push | include/iceflow/ringbuffer.hpp:73-80 | never waits; the value is appended, a buffer of 10000 elements loses its oldest |
| RingBuffers.RingBuffer.PushDataPass | include/iceflow/ringbuffer.hpp:81-91 | waits, changing nothing, exactly when the threshold is not negative and the queue holds at least that many elements; else the value is appended, a buffer of 10000 elements losing its oldest |
| RingBuffers.RingBuffer.WaitAndPopValuePass | include/iceflow/ringbuffer.hpp:175-183 | waits, changing nothing, exactly when the queue is empty; else the oldest element is split off and returned |
| Monitor.WakeUpsAreNeverLost | include/iceflow/ringbuffer.hpp:73-91 | in every interleaving, while a thread sleeps although its guard holds, some thread still has its notification ahead: the mutex holder or one that has unlocked |
| Monitor.BlockedStatesAreJustified | include/iceflow/ringbuffer.hpp:175-183 | if no thread can move, the queue is empty for each waiting consumer and at the threshold of each waiting producer; a consumer and a producer with a non-zero threshold never both wait |
| Monitor.EveryPushArrives | include/iceflow/ringbuffer.hpp:81-91 | in every run, for each value: the times it was pushed and the threads still in a push of it are together the calls that push it, so no call is dropped, whatever it waited for |
| Monitor.EveryPopIsServed | include/iceflow/ringbuffer.hpp:175-183 | in every run: the elements popped and the threads still in a pop are together the calls of a pop |
| Monitor.CallRuns | include/iceflow/ringbuffer.hpp:73-91 | with the mutex free, a call can run to its end and wake all sleepers, or, if its guard is false, falls asleep with the queue untouched |
| Monitor.WakingForNothing | include/iceflow/ringbuffer.hpp:84-86 | a thread woken with a false guard tests again and sleeps on; nothing has changed |
| Monitor.InternalRunsAreFinite | include/iceflow/ringbuffer.hpp:73-91 | from any state, a run without new calls and spurious wake-ups has a bounded length, whatever the scheduler does and although every notification wakes all sleepers |
| Monitor.EveryRunComesToRest | include/iceflow/ringbuffer.hpp:175-183 | after any run, the threads left to themselves come to rest within that bound, and then each one still waiting has a false guard |
| Monitor.FifoWithoutLoss | include/iceflow/ringbuffer.hpp:81-91 | in every run with thresholds from 0 to a limit of at most 10000: popped elements followed by the queue are the pushed ones in lock order, and the size stays within the limit |
| Monitor.LossIsOfTheOldest | include/iceflow/ringbuffer.hpp:44 | in every run: what left followed by the queue is the push history; an enqueue overwrites exactly when the buffer is full, and then the oldest element |
| Delivery.InvariantHolds | src/consumer.cpp:99-129 | in every execution: data comes from a producer of its edge on one of its partitions, each acknowledgement answers a callback run of its node and edge, deliveries and handler notices are of the right edge, and the publication order is complete |
| Delivery.DeliveryIsConserved | src/consumer.cpp:68-80 | from the step at which a node learns of an item of its consumer's edge on, in every later state and through every repartitioning, the consumer's callback runs done, skipped and pending on it are as many as its subscriptions to the item's partition were at that step |
| Delivery.NothingElseIsDelivered | src/consumer.cpp:99-115 | before its node learns of an item of its own edge, and for all other items, a consumer has no delivery at all |
| Delivery.AcknowledgedOncePerRun | src/consumer.cpp:121-127 | in every execution, for each delivery: the acknowledgements sent and those still due are as many as the callback executions |
| Delivery.HandledOnceEach | src/producer.cpp:59-92 | in every execution: each acknowledgement that has reached a producer's node waits for its handler or was handled once, and nothing else ever was |
| Delivery.SafeExactlyWithOneForeignProducer | src/producer.cpp:59-92 | in every execution everything missing from a store was consumed on its own edge, exactly when no consumer can hear of two producers of its edge |
| Delivery.UnsafeExecution | src/consumer.cpp:121-127 | for every topology with two such producers, an execution in which one erases an item nobody consumed |
| Delivery.ConsumedIsErased | src/producer.cpp:59-92 | in every topology and execution, once all acknowledgements have been sent, learned of by the nodes with a producer of their edge, and handled, whatever was consumed has left its store |
| Delivery.StoresHoldTheUnconsumed | src/producer.cpp:59-92 | where no consumer can hear of two producers of its edge, the stores then hold exactly what has not been consumed |
| Clearance.ClearedExecution | src/producer.cpp:59-92 | for every such topology with a consumer and a producer of its edge on another node, an execution that ends with all acknowledgements through and an item consumed and erased |
| ExactlyOnce.ConsumedOnceExactlyWhenHeldOnce | src/consumer.cpp:68-80 | in every execution, for an item that has arrived everywhere and was only handed to consumers that had a callback by then: consumed exactly once if and only if just one consumer's list held its partition, once, at the step where that consumer's own node learned of it; lost if and only if none did |
| ExactlyOnce.HandoverOutcome | src/consumer.cpp:68-80 | a partition handed from a (step i) to b (later step k): an item is lost exactly if a's node learned of it after i and b's before k, doubled exactly if a's did before i and b's after k, and consumed once otherwise |
| ExactlyOnce.HandoverLosesItem | src/consumer.cpp:68-80 | an execution in which a partition changes hands between two covered states and an item is never consumed |
| ExactlyOnce.HandoverDoublesItem | src/consumer.cpp:68-80 | the same handover in an execution in which an item is consumed twice |
| ExactlyOnce.CoveredStepKeepsOwners | src/consumer.cpp:68-80 | a single step between two covered states changes the owner of no partition, so a handover has an uncovered state in between |
| ExactlyOnce.CoveredWhileLearned | src/consumer.cpp:68-80 | if the edge was covered and not repartitioned while the nodes were learning of an item, the item is held once, whatever happened before and after: set-up after its publication, handovers between items |
| ExactlyOnce.ConsumedIsPublishedExactly | src/producer.cpp:96-104 | on a settled edge the items consumed are a permutation of those published if and only if each was held once when the nodes learned of it; the payloads handed to callbacks are then a permutation of those published |
| ExactlyOnce.ConsumedAndLost | src/consumer.cpp:99-115 | if each item was held once or by nobody, the items consumed and those held by nobody make up the published ones |
| Stages.StageAppliesItsFunction | examples/wordCount/lines2words/lines2words.cpp:96-109 | in every execution in which each node publishes, for each payload its callback was handed, the results in order and nothing else, interleaved with all other steps: what was published downstream is, up to order, the results for all payloads consumed upstream |
| Stages.ServingAnswers | src/consumer.cpp:99-129 | nodes that handle one delivery after the other, publishing each callback's results before acknowledging, meet that condition, however the nodes interleave |
| Stages.ServesOn | src/consumer.cpp:99-129 | runs in which a node does so can be put one after another |
| Stages.OtherStepServes | src/iceflow.cpp:124-132 | any step other than a callback execution, an acknowledgement and a publication downstream is such a run by itself |
| SlidingWindow.IntendedWindowIsFilter | src/consumer.cpp:52-66 | with the intended age and a monotone clock, after every event the window is sorted and equals the filter of the whole history |
| SlidingWindow.WrittenWindowIsHistory | src/consumer.cpp:52-66 | as written, the window is the whole history |
| SlidingWindow.WrittenUnitsAreRight | src/consumer.cpp:90-97 | the reported units equal the intended ones exactly while nothing recorded is older than a second |
| SlidingWindow.WrittenUnitsAreWrong | src/consumer.cpp:52-66 | one consumption queried two seconds later is still counted |
| SlidingWindow.PrunedIs | src/consumer.cpp:52-66 | as written, the timestamps dropped from the front are those more than a second after the reference time; as intended, those more than a second before it |
| SlidingWindow.RecentCount | src/consumer.cpp:52-66 | the filter keeps exactly the times of the last second, each as often as it was recorded |
| SlidingWindow.NextEvent | src/consumer.cpp:43-66 | each event extends the window and the history as the corresponding operation of a consumer does |
| Consumers.IceflowConsumer.constructor | src/consumer.cpp:31-39 | a new consumer has no handles and no subscriptions |
| Consumers.IceflowConsumer.CopyOf | src/iceflow.cpp:209 | a copy shares all handles with the original |
| Consumers.IceflowConsumer.SaveTimestamp | src/consumer.cpp:43-50 | records the time, restarts the idle time, and prunes as the written age test says |
| Consumers.IceflowConsumer.Destroy | src/consumer.cpp:41 | removes exactly its own live subscriptions |
| Consumers.IceflowConsumer.CleanUpTimestamps | src/consumer.cpp:52-66 | drops timestamps from the front as the written age test says |
| Consumers.IceflowConsumer.Repartition | src/consumer.cpp:68-80 | afterwards the handles are the live subscriptions, one per list entry in order, all others' subscriptions untouched; fails exactly for an expired publish/subscribe object and a non-empty list |
| Consumers.IceflowConsumer.GetConsumptionStats | src/consumer.cpp:90-97 | reports the pruned window's size and the idle time; handles and subscriptions are not touched |
| Consumers.IceflowConsumer.SubscribeCallBack | src/consumer.cpp:99-129 | with a callback: runs it on the data, and what is published is what the callback publishes, followed, unless it throws, by one text on the edge's backchannel that parses to the item's number; otherwise changes nothing |
| Consumers.IceflowConsumer.SubscribeToTopicPartition | src/consumer.cpp:135-151 | adds one fresh handle for the partition, or fails without change |
| Consumers.IceflowConsumer.UnsubscribeFromAllPartitions | src/consumer.cpp:153-160 | removes the subscriptions behind all handles and forgets the handles |
| Producers.IceflowProducer.Make | src/producer.cpp:28-42 | no producer, and nothing subscribed, exactly for zero partitions; else all partitions are declared and the handler is subscribed to the edge's backchannel |
| Producers.IceflowProducer.HandleBackchannel | src/producer.cpp:64-92 | erases the stored name of the number the text parses to, and nothing on any other text |
| Producers.IceflowProducer.PushData | src/producer.cpp:96-104 | publishes the data on the drawn partition and stores it under the next number; nothing if the object is gone |
| Producers.IceflowProducer.SaveTimestamp | src/producer.cpp:106-111 | records the time and prunes as the written age test says; the idle time is not restarted |
| Producers.IceflowProducer.CleanUpTimestamps | src/producer.cpp:113-127 | drops timestamps from the front as the written age test says |
| Producers.IceflowProducer.GetProductionStats | src/producer.cpp:150-157 | reports the pruned window's size and the time since the idle start, which is the clock's origin for a new producer |
| Producers.IceflowProducer.SetTopicPartitions | src/producer.cpp:129-140 | fails without change exactly for zero; else declares all partitions below the count, as 32-bit numbers |
| Producers.SetRepeatedly | src/iceflow.cpp:134-143 | after any run of calls the declared partitions are those of the last successful one |
| Producers.IceflowProducer.GetNextPartitionNumber | src/producer.cpp:159-161 | the choice is below the constructor's count, whatever was declared since |
| Producers.ChosenPartitionIsDeclared | src/producer.cpp:159-161 | every draw selects a declared partition exactly when the last successful count is not below the constructor's |
| Producers.ChosenWithUpdatedCount | src/producer.cpp:129-140 | with the updated count instead, the partitions that can be drawn are the declared ones |
| Partitions.CreateConsumerPartitions | examples/wordCount/lines2words/lines2words.cpp:60-71 | on every input on which the source's loop stops, the list is the values of its 32-bit counter up to the first beyond the bound |
| Partitions.StopsExactlyWhenTerminates | examples/wordCount/lines2words/lines2words.cpp:65-68 | the loop stops exactly when the largest 32-bit number that differs from the index by a multiple of the largest power of two in the step lies beyond the bound |
| Partitions.CleanRoundsAreStrided | examples/wordCount/lines2words/lines2words.cpp:60-71 | where the counter does not wrap around, the list the loop returns is the strided list |
| Partitions.StridedListsPartition | examples/wordCount/lines2words/lines2words.cpp:55-71 | for consumer indices k .. k+n-1 each list is increasing, and each partition of k .. highest is in exactly one of them, once |
| Partitions.StridedListsBalanced | examples/wordCount/lines2words/lines2words.cpp:55-71 | list lengths differ by at most one |
| Partitions.WrapAround | examples/wordCount/lines2words/lines2words.cpp:65-68 | the loop stops with an increasing list exactly when the index is beyond the bound or the step is positive and index + ((bound - index) / step + 1) * step fits 32 bits; bound + step in range suffices |
| Partitions.NeverStops | examples/wordCount/lines2words/lines2words.cpp:65-68 | the second consumer of two, with the largest bound: the loop goes on for ever |
| Partitions.StopsAfterWrapping | examples/wordCount/lines2words/lines2words.cpp:65-68 | an input for which the loop stops after wrapping around, with a falling list |
| Partitions.ExpandRange | src/services/node-instance-service.cpp:42-44 | the filled vector is the range from the lower bound, its length and values wrapping at 32 bits |
| Partitions.InRange | src/services/node-instance-service.cpp:35-44 | a range holds lower up to but not upper, each once; with the bounds swapped, everything else |
| Partitions.RangesTile | src/services/node-instance-service.cpp:42-50 | along a chain of bounds from 0 to n each partition is in exactly one range, once |
| Partitions.ChainsExist | src/services/node-instance-service.cpp:42-50 | one range may take all partitions, and two may meet anywhere |
| Pipeline.StridedListsCover | examples/wordCount/lines2words/lines2words.cpp:55-71 | lists for the indices 0 .. n-1 on n consumers cover all partitions |
| Pipeline.RangesCover | src/iceflow.cpp:124-132 | requests along a chain of bounds, one per consumer, cover all partitions |
| WordCountExample.ExampleListsExist | examples/wordCount/lines2words/lines2words.cpp:85-86 | the loop returns a list to both instances exactly for fewer than 2^32 - 2 partitions |
| WordCountExample.ExampleSubscriptions | examples/wordCount/lines2words/lines2words.cpp:85-86 | with the lists the loop returns, the two instances of the example are subscribed to 1 .. maxPartitions, alternating |
| WordCountExample.ExampleMissesPartitionZero | examples/wordCount/lines2words/lines2words.cpp:85-86 | the example's assignment never covers the partitions: nobody is subscribed to 0 |
| Pipeline.WordCountOverDelivery | examples/wordCount/wordcount/wordcount.cpp:85-92 | in every settled execution in which each line and each word was held once when the nodes learned of it, the source published the lines and the splitters answered each line they were handed with its words: each lower-cased word of the text is counted as often as it occurs, over all counter instances together, and a single counter has exactly these counts, however everything interleaved |
| WordCountExample.ExampleIsRightExactly | examples/wordCount/lines2words/lines2words.cpp:85-86 | the example as wired (the loop's lists on two splitters, one counter on partition 0 of one): the counter's map is right exactly when no line with a word was drawn on partition 0 |
| WordCountRuns.ExampleLosesLine | examples/wordCount/lines2words/lines2words.cpp:85-86 | an execution of the example as wired, with three partitions, that meets all those conditions and ends with wrong counts |
| WordCountRuns.ExampleCountsLine | examples/wordCount/wordcount/wordcount.cpp:85-92 | one that ends with the right counts |
| WordCountRuns.GraphIsDeployed | examples/wordCount/application-DAG.json:3-76 | the deployment of these executions is what wiring the example's graph gives, with two instances of the splitter |
| WordCountRuns.ExampleIsUnsafe | examples/wordCount/application-DAG.json:3-76 | the example can erase words that nobody has consumed: its counter hears of both splitters |
| WordCount.Text2Lines | examples/wordCount/text2lines/text2lines.cpp:29-56 | pushes the lines of a readable file in order, nothing otherwise |
| WordCount.ReadLine | examples/wordCount/text2lines/text2lines.cpp:38 | takes the first of the remaining lines off the stream |
| WordCount.ReadWord | examples/wordCount/lines2words/lines2words.cpp:40 | takes the first of the remaining words off the stream, or finds none left |
| WordCount.WordSplitter.Lines2Words | examples/wordCount/lines2words/lines2words.cpp:34-49 | pushes the words of the line in order and counts them |
| WordCount.WordCounter.CountWord | examples/wordCount/wordcount/wordcount.cpp:35-56 | adds the lower-cased words of the payload to the counts: each key grows by the words that differ from it in case only |
| WordCount.WordCounter.LowerInPlace | examples/wordCount/wordcount/wordcount.cpp:45-46 | moves each of the letters A to Z up by 32 in the array, and leaves every other character |
| WordCount.WordsAreSeparatedByBlanks | examples/wordCount/lines2words/lines2words.cpp:38-40 | blank, tabulator, line feed, vertical tabulator, form feed and carriage return separate words; a non-empty text without these six is one word |
| WordCount.WordsAcrossSpace | examples/wordCount/lines2words/lines2words.cpp:38-40 | the words of two texts joined by white space are the words of each |
| WordCount.WordAlone | examples/wordCount/wordcount/wordcount.cpp:41-43 | a non-empty text without white space is its only word |
| WordCount.LowerIs | examples/wordCount/wordcount/wordcount.cpp:45-46 | lower-casing works character by character, leaves no letter A to Z and changes nothing where there is none |
| WordCount.LowerCharIs | examples/wordCount/wordcount/wordcount.cpp:45-46 | each of the 26 letters A to Z becomes its small letter; every other character stays |
| WordCount.OneKeyForEachCase | examples/wordCount/wordcount/wordcount.cpp:45-48 | two words are counted under one key exactly when they differ in case only |
| WordCount.CountedCaseBlind | examples/wordCount/wordcount/wordcount.cpp:45-48 | under a word's key the count grows by the number of words that differ from it in case only |
| WordCount.LinesJoin | examples/wordCount/text2lines/text2lines.cpp:38-41 | no line holds a line feed, and the lines with a line feed after each are the text, up to one line feed at its end |
| WordCount.JoinedSplit | examples/wordCount/text2lines/text2lines.cpp:38-41 | conversely, splitting lines put together that way gives back the lines |
| WordCount.WordsOfLinesFrom | examples/wordCount/text2lines/text2lines.cpp:38-41 | the words of the lines, in order, are the words of the text |
| WordCount.CountIsMultiplicity | examples/wordCount/wordcount/wordcount.cpp:48 | the final count of each word is its earlier count plus its number of occurrences, and no other word appears |
| WordCount.CountPermutation | examples/wordCount/wordcount/wordcount.cpp:48 | counting does not depend on the order |
| WordCount.OneMoreCall | examples/wordCount/wordcount/wordcount.cpp:85-90 | each further payload handed to the counter is one more call that counts its words |
| WordCount.EndToEnd | examples/wordCount/wordcount/wordcount.cpp:35-56 | for any delivery order of the lines and then of the words, the final counts are those of the lower-cased words of the whole text |
| WordCount.EndToEndWithLoss | examples/wordCount/wordcount/wordcount.cpp:35-56 | when some lines are lost on the way, the final counts are those of the text exactly when no lost line holds a word |
| Dag.FindNodeByName | src/dag-parser.cpp:112-122 | the first node of the name, or an error exactly when there is none |
| Dag.FindEdgeByName | src/dag-parser.cpp:124-138 | the first edge with the id in graph order, or an error exactly when there is none |
| Dag.FindUpstreamEdges | src/dag-parser.cpp:145-161 | the loop computes the upstream list that the two rows below characterise |
| Dag.UpstreamIsFirstEdges | src/dag-parser.cpp:149-158 | one pair per node with an edge to the task, in node order, with its first such edge |
| Dag.UpstreamIsInverse | src/dag-parser.cpp:145-161 | the lookup is the full inverse relation exactly when no node has two edges to the task |
| Dag.Construct | src/iceflow.cpp:62-102 | throws exactly for an unknown name or an edge without partitions; else a producer per downstream edge id, with the count of the first edge of that id, and a consumer per upstream edge found |
| Dag.WiringIsComplete | src/iceflow.cpp:72-101 | with unique ids, the consumers are exactly the edges listed for the task exactly when no node lists two; they are always sound |
| Dag.BothEndsAreWired | src/iceflow.cpp:84-101 | A has the producer of each of its edges with that edge's partition count, and B its consumer exactly when B's task is the target |
| Dag.SafeExactlyWhenNotScaledOut | src/iceflow.cpp:84-101 | a deployment never loses unconsumed data exactly when no consumer hears from two instances of one producing node |
| Stats.AddEntries | src/services/node-instance-service.cpp:70-82 | each map entry is listed once, in some order, with its units narrowed to 32 bits |
| Stats.NarrowIs | src/services/node-instance-service.cpp:70-82 | the narrowed count differs from the true one by a multiple of 2^32 and is below it; idle times stay |
| Stats.LastOfIs | src/executor.cpp:112-140 | of several entries of a list for one edge the last one decides |
| Stats.IdleTimeIs | src/consumer.cpp:82-88 | the idle time is in whole milliseconds rounded towards zero, modulo 2^64, also for a clock reading before its start |
| Stats.QueryEdgeStats | src/executor.cpp:107-140 | for every edge name the result pairs what each list last says of it, and has no other edges |
| Stats.StatsRoundTrip | src/executor.cpp:94-141 | whatever the listing orders, the executor gets the union of both maps' edges with the pair of their narrowed entries |
| Stats.TrueStatsExactlyBelow32Bits | proto/node-instance.proto:61-70 | an edge's statistics arrive unchanged exactly when its counts are below 2^32 |
| Stats.Exchange | src/executor.cpp:94-141 | both lists in sequence give that result |
| IceFlows.IceFlow.RepartitionConsumer | src/iceflow.cpp:124-132 | throws exactly for an unknown edge; else the consumer of that edge is subscribed to exactly the list there, every other consumer keeps its subscriptions, and producers go on listening |
| IceFlows.IceFlow.Repartition | src/services/node-instance-service.cpp:30-61 | a range request leaves the requested edge's consumer subscribed to exactly the range of that edge |
| IceFlows.IceFlow.RepartitionProducer | src/iceflow.cpp:134-143 | throws exactly for an unknown edge or zero; else declares the count there and nowhere else |
| IceFlows.IceFlow.PushData | src/iceflow.cpp:152-160 | throws exactly for an unknown edge; else publishes the data once, on the requested edge and the partition drawn with that producer's count |
| IceFlows.IceFlow.GetConsumerStats | src/iceflow.cpp:205-214 | right statistics for every consumer, and all their subscriptions gone while the handle lists stay: in step only for consumers without handles |
| IceFlows.IceFlow.GetProducerStats | src/iceflow.cpp:216-225 | every producer of an instance, whatever was done with it, reports no unit, and an idle time since the clock's origin |
| IceFlows.IceFlow.QueryOver | src/services/node-instance-service.cpp:63-85 | a query by the executor: the union of the instance's edges with their narrowed statistics, and every consumer of the instance unsubscribed |
| IceFlows.IceFlow.RegisterConsumerCallback | src/iceflow.cpp:176-185 | throws exactly for an unknown edge; else that consumer, and no other, gets a callback |
| IceFlows.Wire | src/iceflow.cpp:84-101 | a fresh instance: a listening producer with all its partitions declared for each downstream edge, an unsubscribed consumer without callback for each upstream edge |
| IceFlows.ConstructFlow | src/iceflow.cpp:62-102 | from the graph to the objects: no instance exactly for an unknown name or an edge without partitions; else its producers, with the partition counts of the first edge of each id, and its consumers are those of the first node of the name |
| Refinement.Start | src/iceflow.cpp:84-101 | a fresh instance represents its node in the initial state |
| Refinement.Push | src/iceflow.cpp:152-160 | pushing data is a step Publish, and the instance represents the state after it |
| Refinement.Assign | src/iceflow.cpp:124-132 | repartitioning a consumer is a step Repartition, and the instance represents the state after it |
| Refinement.Register | src/iceflow.cpp:176-185 | registering a callback is a step SetCallback, and the instance represents the state after it |
| Refinement.Acknowledge | src/producer.cpp:64-92 | the backchannel handler on a notice's text is a step HandleAck, and the instance represents the state after it |
| Refinement.Deliver | src/consumer.cpp:99-129 | handling a pending delivery invokes the callback, if there is one, on that item's payload, and leaves the instance representing the end of the run below |
| Refinement.DeliveryPath | src/consumer.cpp:99-129 | that run is RunCallback alone without a callback; with one it is RunCallback, the callback's Publish steps in order, and SendAck unless the callback throws |
| Refinement.DeliveryServes | src/consumer.cpp:99-129 | if what the callback pushes downstream are the stage's results for the payload, each node handles its deliveries one after the other in that run |
| Refinement.Query | src/services/node-instance-service.cpp:63-85 | a query of the statistics leaves the instance representing the end of the run below, stale handles notwithstanding |
| Refinement.ClearPath | src/iceflow.cpp:209-211 | that run is one Repartition to no partition for each consumer of the node |
| Refinement.QueriedConsumersMissItems | src/iceflow.cpp:209-211 | in every execution, an item a node learns of after such a step and before the consumer's next Repartition is never delivered to that consumer |
| Refinement.OtherStepsKeep | src/consumer.cpp:99-129 | no step of another node, and no node's learning of an item, changes what the instance represents |
| Refinement.RepresentsMeans | src/iceflow.cpp:84-101 | an instance that represents its node has published what the node has, stores exactly its stored items under their names, and has as many live subscriptions to each partition as its list says |
| Refinement.PathExtendsExecution | src/consumer.cpp:99-129 | the runs above continue an execution |
| Refinement.GrantedBySubscriptions | src/consumer.cpp:135-151 | the deliveries granted when a node learns of an item are as many as the consumer object's live subscriptions to its partition, whatever handles it keeps |

## Left out

- CreateConsumerPartitions: says nothing of the inputs on which the source's loop never stops;
  `StopsExactlyWhenTerminates` shows that its precondition excludes exactly these.
- PushDataPass: one pass from taking the mutex to returning or waiting; the waiting loop is in `Monitor`.
- WaitAndPopValuePass: likewise.
- CountWord: counts are unbounded where the source's are of type `int`; printing and measurements are left out.
- SubscribeCallBack: of what the application's callback does, only its publications and whether it throws are modelled.
- Construct: two downstream edges of one id make one backchannel subscription in the model and two in the source, which erases nothing more.
- The remaining pops of the ring buffer and its timed waits: they use a member the circular buffer does not have and never notify.
- A publish/subscribe object that has expired is modelled for the objects of one node, not in `Delivery`, where every node stays up.
- Segmentation of payloads larger than a packet, packet loss, security, and the freshness period.
- Escapes and typed components in edge ids: an edge id is a sequence of octets.
- Fair scheduling: `Monitor` proves that threads come to rest and that resting states are justified, not that a scheduler with ever new calls lets every thread go on.
- gRPC transport, congestion reports, measurements, parsing of the graph file, the run loop and signal handling.
