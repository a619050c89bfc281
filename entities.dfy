/** The REST gateway's request and response records (package `io.confluent.kafkarest.entities`). */
module Entities {
  import opened Wrappers
  import opened JavaInts

  datatype ConsumerInstanceId = ConsumerInstanceId(group: string, instance: string)

  /** A partition as the client names it. */
  datatype TopicPartition = TopicPartition(topic: string, partition: Int32)

  /** One `(topic, partition, offset, metadata?)` entry of a commit, seek or committed response. */
  datatype TopicPartitionOffsetMetadata =
    TopicPartitionOffsetMetadata(topic: string, partition: Int32, offset: Long, metadata: Option<string>)

  /** Element type of the list `commitOffsets` returns (the list is always empty). */
  datatype TopicPartitionOffset =
    TopicPartitionOffset(topic: string, partition: Int32, consumed: Long, committed: Long)

  datatype ConsumerOffsetCommitRequest = ConsumerOffsetCommitRequest(offsets: seq<TopicPartitionOffsetMetadata>)
  datatype ConsumerSeekToRequest = ConsumerSeekToRequest(partitions: seq<TopicPartition>)
  datatype ConsumerSeekToOffsetRequest = ConsumerSeekToOffsetRequest(offsets: seq<TopicPartitionOffsetMetadata>)
  datatype ConsumerAssignmentRequest = ConsumerAssignmentRequest(partitions: seq<TopicPartition>)

  /** Either an explicit topic list or a topic-name pattern (or neither). */
  datatype ConsumerSubscriptionRecord =
    ConsumerSubscriptionRecord(topics: Option<seq<string>>, topicPattern: Option<string>)

  datatype ConsumerCommittedRequest = ConsumerCommittedRequest(partitions: seq<TopicPartition>)
  datatype ConsumerCommittedResponse = ConsumerCommittedResponse(offsets: seq<TopicPartitionOffsetMetadata>)
}
