/**
 * An abstract model of the Kafka client library the session state talks to
 * (`org.apache.kafka.clients.consumer.Consumer` and its value types). Only the
 * state the gateway reads back is kept: the committed-offset table, the
 * subscription and the assignment. What the broker does with seeks, polls and
 * position-based commits is not modelled; those calls appear only in the call log.
 */
module KafkaClient {
  import opened Wrappers
  import opened JavaInts

  datatype TopicPartition = TopicPartition(topic: string, partition: Int32)

  /** A committed position: the next offset to read, and the metadata string if one was given. */
  datatype OffsetAndMetadata = OffsetAndMetadata(offset: Long, metadata: Option<string>)

  /** One call issued to a consumer handle. */
  datatype Call =
    | Poll(timeout: Long)
    | CommitSync
    | CommitAsync
    | CommitSyncOffsets(offsets: map<TopicPartition, OffsetAndMetadata>)
    | SeekToBeginning(partitions: seq<TopicPartition>)
    | SeekToEnd(partitions: seq<TopicPartition>)
    | Seek(partition: TopicPartition, offset: Long)
    | Assign(partitions: seq<TopicPartition>)
    | Subscribe(topics: seq<string>)
    | SubscribePattern(pattern: string)
    | Unsubscribe
    | Close

  /** The number of `close()` calls in a call log. */
  function CloseCount(calls: seq<Call>): nat
  {
    if calls == [] then 0
    else CloseCount(calls[..|calls| - 1]) + (if calls[|calls| - 1].Close? then 1 else 0)
  }

  lemma CloseCountAppend(calls: seq<Call>, c: Call)
    ensures CloseCount(calls + [c]) == CloseCount(calls) + (if c.Close? then 1 else 0)
  {
  }

  /** The broker-side state of one consumer handle that the gateway can read back. */
  class Consumer {
    var committedOffsets: map<TopicPartition, OffsetAndMetadata>
    var subscribedTopics: set<string>
    var subscribedPattern: Option<string>
    var assignedPartitions: set<TopicPartition>

    constructor ()
      ensures committedOffsets == map[] && subscribedTopics == {}
      ensures subscribedPattern == None && assignedPartitions == {}
    {
      committedOffsets := map[];
      subscribedTopics := {};
      subscribedPattern := None;
      assignedPartitions := {};
    }

    /** `commitSync(offsets)`: every given partition's committed position becomes the given one. */
    method CommitSyncOffsets(offsets: map<TopicPartition, OffsetAndMetadata>)
      modifies this
      ensures committedOffsets == old(committedOffsets) + offsets
      ensures subscribedTopics == old(subscribedTopics) && subscribedPattern == old(subscribedPattern)
      ensures assignedPartitions == old(assignedPartitions)
    {
      committedOffsets := committedOffsets + offsets;
    }

    /** `subscribe(topics)`: replaces any earlier subscription by exactly these topics. */
    method Subscribe(topics: seq<string>)
      modifies this
      ensures subscribedTopics == set t | t in topics
      ensures subscribedPattern == None
      ensures committedOffsets == old(committedOffsets) && assignedPartitions == old(assignedPartitions)
    {
      subscribedTopics := set t | t in topics;
      subscribedPattern := None;
    }

    /**
     * `subscribe(pattern, listener)`: replaces any earlier subscription by the pattern; the
     * topics it matches are discovered by the broker, so the model's topic set becomes empty.
     */
    method SubscribePattern(pattern: string)
      modifies this
      ensures subscribedTopics == {} && subscribedPattern == Some(pattern)
      ensures committedOffsets == old(committedOffsets) && assignedPartitions == old(assignedPartitions)
    {
      subscribedTopics := {};
      subscribedPattern := Some(pattern);
    }

    /** `unsubscribe()`: drops the subscription and every assigned partition. */
    method Unsubscribe()
      modifies this
      ensures subscribedTopics == {} && subscribedPattern == None && assignedPartitions == {}
      ensures committedOffsets == old(committedOffsets)
    {
      subscribedTopics := {};
      subscribedPattern := None;
      assignedPartitions := {};
    }

    /** `assign(partitions)`: the assignment becomes exactly the given partitions. */
    method Assign(partitions: seq<TopicPartition>)
      modifies this
      ensures assignedPartitions == set p | p in partitions
      ensures committedOffsets == old(committedOffsets)
      ensures subscribedTopics == old(subscribedTopics) && subscribedPattern == old(subscribedPattern)
    {
      assignedPartitions := set p | p in partitions;
    }

    /** `committed(partition)`: the last committed position, or `null` when there is none. */
    method Committed(partition: TopicPartition) returns (r: Option<OffsetAndMetadata>)
      ensures r.Some? <==> partition in committedOffsets
      ensures r.Some? ==> r.value == committedOffsets[partition]
    {
      r := if partition in committedOffsets then Some(committedOffsets[partition]) else None;
    }

    method Subscription() returns (topics: set<string>)
      ensures topics == subscribedTopics
    {
      topics := subscribedTopics;
    }

    method Assignment() returns (partitions: set<TopicPartition>)
      ensures partitions == assignedPartitions
    {
      partitions := assignedPartitions;
    }
  }
}
