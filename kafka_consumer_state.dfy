/**
 * The per-consumer session state of the REST proxy's v2 consumer API
 * (`io.confluent.kafkarest.v2.KafkaConsumerState`): a buffered batch of polled
 * records read through a cursor, administrative requests translated into calls on
 * the Kafka consumer handle, and a sliding expiration deadline.
 *
 * Every method is one atomic step (the read/write lock is not modelled). The
 * Kafka consumer is the abstract `KafkaClient.Consumer`; the ghost field `calls`
 * records, in order, every state-changing call the session has issued to it
 * (the queries `committed`, `subscription` and `assignment` are not logged).
 */
module KafkaRestV2 {
  import opened Wrappers
  import opened JavaInts
  import opened Entities
  import K = KafkaClient

  // ---------------------------------------------------------------------------
  // Request translation
  // ---------------------------------------------------------------------------

  /** The Kafka partition with the same topic and partition number as the client's. */
  function ToKafka(t: Entities.TopicPartition): (p: K.TopicPartition)
  {
    K.TopicPartition(t.topic, t.partition)
  }

  /** The Kafka partition named by an offset entry. */
  function PartitionOf(t: TopicPartitionOffsetMetadata): (p: K.TopicPartition)
  {
    K.TopicPartition(t.topic, t.partition)
  }

  /** The client's partitions, converted one by one and kept in request order. */
  function KafkaPartitions(ps: seq<Entities.TopicPartition>): (kps: seq<K.TopicPartition>)
    ensures |kps| == |ps|
    ensures forall i :: 0 <= i < |ps| ==> kps[i].topic == ps[i].topic && kps[i].partition == ps[i].partition
    ensures forall i :: 0 <= i < |ps| ==> kps[i] == ToKafka(ps[i])
    ensures forall t :: t in ps ==> ToKafka(t) in kps
  {
    seq(|ps|, i requires 0 <= i < |ps| => ToKafka(ps[i]))
  }

  /**
   * What committing entry `t` stores: the offset after the one the client
   * consumed (`long` arithmetic), with the metadata string only if one was given.
   */
  function CommitOf(t: TopicPartitionOffsetMetadata): (c: K.OffsetAndMetadata)
    ensures t.offset < MaxLong ==> c.offset == t.offset + 1
    ensures t.offset == MaxLong ==> c.offset == MinLong
    ensures c.metadata == t.metadata
  {
    K.OffsetAndMetadata(WrapLong(t.offset + 1), t.metadata)
  }

  /** The offset map built from the entries in order: a later entry for a partition overwrites an earlier one. */
  function OffsetMapOf(offsets: seq<TopicPartitionOffsetMetadata>): (offsetMap: map<K.TopicPartition, K.OffsetAndMetadata>)
  {
    if offsets == [] then map[]
    else
      var last := offsets[|offsets| - 1];
      OffsetMapOf(offsets[..|offsets| - 1])[PartitionOf(last) := CommitOf(last)]
  }

  /**
   * The map has a key exactly for the partitions the entries name, and each key
   * holds the commit of the LAST entry naming that partition.
   */
  lemma {:induction false} OffsetMapOfLastWins(offsets: seq<TopicPartitionOffsetMetadata>, p: K.TopicPartition)
    ensures p in OffsetMapOf(offsets) <==> exists i :: 0 <= i < |offsets| && PartitionOf(offsets[i]) == p
    ensures p in OffsetMapOf(offsets) ==>
      exists i :: 0 <= i < |offsets| && PartitionOf(offsets[i]) == p &&
        OffsetMapOf(offsets)[p] == CommitOf(offsets[i]) &&
        forall j :: i < j < |offsets| ==> PartitionOf(offsets[j]) != p
  {
    if offsets != [] {
      var n := |offsets| - 1;
      var front := offsets[..n];
      OffsetMapOfLastWins(front, p);
      if PartitionOf(offsets[n]) != p {
        if p in OffsetMapOf(front) {
          var i :| 0 <= i < |front| && PartitionOf(front[i]) == p &&
            OffsetMapOf(front)[p] == CommitOf(front[i]) &&
            forall j :: i < j < |front| ==> PartitionOf(front[j]) != p;
          assert offsets[i] == front[i];
          assert forall j :: i < j < |offsets| ==> PartitionOf(offsets[j]) != p by {
            forall j | i < j < |offsets| ensures PartitionOf(offsets[j]) != p {
              if j < n { assert offsets[j] == front[j]; }
            }
          }
        }
        assert (exists i :: 0 <= i < |offsets| && PartitionOf(offsets[i]) == p) ==>
               (exists i :: 0 <= i < |front| && PartitionOf(front[i]) == p) by {
          if exists i :: 0 <= i < |offsets| && PartitionOf(offsets[i]) == p {
            var i :| 0 <= i < |offsets| && PartitionOf(offsets[i]) == p;
            assert i < n && front[i] == offsets[i];
          }
        }
      }
    }
  }

  /** The offset map of a single entry `(t, p, o, m)` is exactly `(t, p) ↦ (o + 1, m)`. */
  lemma OffsetMapOfSingle(t: TopicPartitionOffsetMetadata)
    requires t.offset < MaxLong
    ensures OffsetMapOf([t]) == map[K.TopicPartition(t.topic, t.partition) := K.OffsetAndMetadata(t.offset + 1, t.metadata)]
  {
  }

  /** The `consumer.seek(partition, offset)` calls a seek-to-offset request makes, in request order. */
  function SeekCalls(offsets: seq<TopicPartitionOffsetMetadata>): (seeks: seq<K.Call>)
  {
    if offsets == [] then []
    else
      var last := offsets[|offsets| - 1];
      SeekCalls(offsets[..|offsets| - 1]) + [K.Call.Seek(PartitionOf(last), last.offset)]
  }

  /** One seek per entry, to exactly the entry's offset; the metadata plays no part. */
  lemma {:induction false} SeekCallsAt(offsets: seq<TopicPartitionOffsetMetadata>, i: nat)
    requires i < |offsets|
    ensures |SeekCalls(offsets)| == |offsets|
    ensures SeekCalls(offsets)[i] == K.Call.Seek(K.TopicPartition(offsets[i].topic, offsets[i].partition), offsets[i].offset)
  {
    var n := |offsets| - 1;
    if i < n {
      SeekCallsAt(offsets[..n], i);
    } else if n > 0 {
      SeekCallsAt(offsets[..n], 0);
    }
  }

  /** The entry `committed` reports for a partition whose committed position is `c`. */
  function CommittedEntry(p: K.TopicPartition, c: K.OffsetAndMetadata): (e: TopicPartitionOffsetMetadata)
  {
    TopicPartitionOffsetMetadata(p.topic, p.partition, c.offset, c.metadata)
  }

  /** The committed positions of the requested partitions, in request order, skipping partitions without one. */
  function CommittedEntries(ps: seq<Entities.TopicPartition>, table: map<K.TopicPartition, K.OffsetAndMetadata>)
    : (entries: seq<TopicPartitionOffsetMetadata>)
  {
    if ps == [] then []
    else
      var rest := CommittedEntries(ps[..|ps| - 1], table);
      var p := ToKafka(ps[|ps| - 1]);
      if p in table then rest + [CommittedEntry(p, table[p])] else rest
  }

  /** An entry is reported exactly when it is the committed position of a requested partition that has one. */
  lemma {:induction false} CommittedEntriesMembers(ps: seq<Entities.TopicPartition>,
                                                   table: map<K.TopicPartition, K.OffsetAndMetadata>,
                                                   e: TopicPartitionOffsetMetadata)
    ensures e in CommittedEntries(ps, table) <==>
      exists i :: 0 <= i < |ps| && ToKafka(ps[i]) in table && e == CommittedEntry(ToKafka(ps[i]), table[ToKafka(ps[i])])
  {
    if ps != [] {
      var n := |ps| - 1;
      CommittedEntriesMembers(ps[..n], table, e);
      assert forall i :: 0 <= i < n ==> ps[..n][i] == ps[i];
    }
  }

  /** The report for a concatenated request is the reports for its parts, in order. */
  lemma {:induction false} CommittedEntriesAppend(ps: seq<Entities.TopicPartition>, qs: seq<Entities.TopicPartition>,
                                                  table: map<K.TopicPartition, K.OffsetAndMetadata>)
    ensures CommittedEntries(ps + qs, table) == CommittedEntries(ps, table) + CommittedEntries(qs, table)
  {
    if qs == [] {
      assert ps + qs == ps;
    } else {
      var n := |qs| - 1;
      CommittedEntriesAppend(ps, qs[..n], table);
      assert (ps + qs)[..|ps + qs| - 1] == ps + qs[..n];
    }
  }

  // ---------------------------------------------------------------------------
  // The session state
  // ---------------------------------------------------------------------------

  class KafkaConsumerState<R> {
    const instanceId: ConsumerInstanceId
    /** The consumer handle; `null` once the session has been closed. */
    var consumer: K.Consumer?
    /** The handle the session was created with, kept after `close` clears `consumer`. */
    ghost const handle: K.Consumer
    /** The records of the last poll; `null` until the first refill. */
    var consumerRecordList: Option<seq<R>>
    /** How many records of `consumerRecordList` have been handed out. */
    var index: nat
    /** The deadline, in milliseconds, after which the session may be reaped. */
    var expiration: Long
    /** Every state-changing call the session has issued to its consumer handle, oldest first. */
    ghost var calls: seq<K.Call>

    ghost predicate Valid()
      reads this
    {
      && (consumer != null ==> consumer == handle)
      && K.CloseCount(calls) == (if consumer == null then 1 else 0)
      && (consumerRecordList.None? ==> index == 0)
      && (consumerRecordList.Some? ==> index <= |consumerRecordList.value|)
    }

    /** The records of the current batch not yet handed out, in fetch order. */
    ghost function Unread(): seq<R>
      reads this
      requires Valid()
    {
      match consumerRecordList
      case None => []
      case Some(list) => list[index..]
    }

    /** The session's expiration starts at `now + timeout` (`nowMs` and `timeoutMs` come from the configuration). */
    constructor (instanceId: ConsumerInstanceId, consumer: K.Consumer, nowMs: Long, timeoutMs: Int32)
      ensures Valid()
      ensures this.instanceId == instanceId && this.consumer == consumer && handle == consumer
      ensures consumerRecordList == None && index == 0 && calls == []
      ensures !HasNext() && Peek() == None
      ensures expiration == WrapLong(nowMs + timeoutMs)
    {
      this.instanceId := instanceId;
      this.consumer := consumer;
      this.handle := consumer;
      this.consumerRecordList := None;
      this.index := 0;
      this.expiration := WrapLong(nowMs + timeoutMs);
      this.calls := [];
    }

    // --- buffered fetch-and-drain ---------------------------------------------

    /** There is a record left in the current batch. */
    predicate HasNext()
      reads this
      ensures Valid() ==> (HasNext() <==> Unread() != [])
    {
      consumerRecordList.Some? && index < |consumerRecordList.value|
    }

    /** The next record to hand out, without handing it out; `null` when the batch is exhausted. */
    function Peek(): (r: Option<R>)
      reads this
      ensures Valid() ==> r == if Unread() == [] then None else Some(Unread()[0])
    {
      if HasNext() then Some(consumerRecordList.value[index]) else None
    }

    /** Hands out the next record and moves the cursor past it; `null` and no change when exhausted. */
    method Next() returns (record: Option<R>)
      requires Valid()
      modifies this`index
      ensures Valid()
      ensures record == old(Peek())
      ensures old(HasNext()) ==> index == old(index) + 1 && Unread() == old(Unread())[1..]
      ensures !old(HasNext()) ==> index == old(index)
    {
      if HasNext() {
        record := Some(consumerRecordList.value[index]);
        index := index + 1;
      } else {
        record := None;
      }
    }

    /**
     * Polls a new batch only when the current one is exhausted. `polled` is what
     * `consumer.poll(timeout)` returns, in fetch order. The handle is used only on
     * that path, so only there must the session be open.
     */
    method GetOrCreateConsumerRecords(timeout: Long, polled: seq<R>)
      requires Valid()
      requires !HasNext() ==> consumer != null
      modifies this`index, this`consumerRecordList, this`calls
      ensures Valid()
      ensures old(HasNext()) ==>
        index == old(index) && consumerRecordList == old(consumerRecordList) && calls == old(calls)
      ensures !old(HasNext()) ==>
        index == 0 && consumerRecordList == Some(polled) && calls == old(calls) + [K.Call.Poll(timeout)]
      ensures Unread() == if old(HasNext()) then old(Unread()) else polled
    {
      if !HasNext() {
        index := 0;
        consumerRecordList := Some([]);
        calls := calls + [K.Call.Poll(timeout)];
        K.CloseCountAppend(old(calls), K.Call.Poll(timeout));
        var i := 0;
        while i < |polled|
          invariant 0 <= i <= |polled|
          invariant index == 0 && calls == old(calls) + [K.Call.Poll(timeout)]
          invariant consumerRecordList == Some(polled[..i])
        {
          consumerRecordList := Some(consumerRecordList.value + [polled[i]]);
          assert polled[..i + 1] == polled[..i] + [polled[i]];
          i := i + 1;
        }
        assert polled[..|polled|] == polled;
      }
    }

    // --- offsets and partitions -----------------------------------------------

    /**
     * Without a request, commits everything read so far, synchronously unless an
     * `async` value is present. With one, commits the translated offset map
     * synchronously whatever `async` says. The returned list is always empty.
     */
    method CommitOffsets(async: Option<string>, offsetCommitRequest: Option<ConsumerOffsetCommitRequest>)
      returns (result: seq<TopicPartitionOffset>)
      requires Valid() && consumer != null
      modifies this`calls, handle
      ensures Valid() && result == []
      ensures offsetCommitRequest.None? && async.None? ==>
        && calls == old(calls) + [K.Call.CommitSync]
        && handle.subscribedTopics == old(handle.subscribedTopics)
        && handle.subscribedPattern == old(handle.subscribedPattern)
        && handle.assignedPartitions == old(handle.assignedPartitions)
      ensures offsetCommitRequest.None? && async.Some? ==>
        && calls == old(calls) + [K.Call.CommitAsync]
        && handle.subscribedTopics == old(handle.subscribedTopics)
        && handle.subscribedPattern == old(handle.subscribedPattern)
        && handle.assignedPartitions == old(handle.assignedPartitions)
      ensures offsetCommitRequest.Some? ==>
        var offsetMap := OffsetMapOf(offsetCommitRequest.value.offsets);
        && calls == old(calls) + [K.Call.CommitSyncOffsets(offsetMap)]
        && handle.committedOffsets == old(handle.committedOffsets) + offsetMap
        && handle.subscribedTopics == old(handle.subscribedTopics)
        && handle.subscribedPattern == old(handle.subscribedPattern)
        && handle.assignedPartitions == old(handle.assignedPartitions)
    {
      var c: K.Call;
      if offsetCommitRequest == None {
        c := if async == None then K.Call.CommitSync else K.Call.CommitAsync;
      } else {
        var offsetMap := ToOffsetMap(offsetCommitRequest.value.offsets);
        consumer.CommitSyncOffsets(offsetMap);
        c := K.Call.CommitSyncOffsets(offsetMap);
      }
      calls := calls + [c];
      K.CloseCountAppend(old(calls), c);
      result := [];
    }

    /** Seeks each requested partition to its earliest offset; no request, no call. */
    method SeekToBeginning(seekToRequest: Option<ConsumerSeekToRequest>)
      requires Valid()
      requires seekToRequest.Some? ==> consumer != null
      modifies this`calls
      ensures Valid()
      ensures seekToRequest.None? ==> calls == old(calls)
      ensures seekToRequest.Some? ==>
        calls == old(calls) + [K.Call.SeekToBeginning(KafkaPartitions(seekToRequest.value.partitions))]
    {
      if seekToRequest != None {
        var topicPartitions := ToKafkaPartitions(seekToRequest.value.partitions);
        calls := calls + [K.Call.SeekToBeginning(topicPartitions)];
        K.CloseCountAppend(old(calls), K.Call.SeekToBeginning(topicPartitions));
      }
    }

    /** Seeks each requested partition to its latest offset; no request, no call. */
    method SeekToEnd(seekToRequest: Option<ConsumerSeekToRequest>)
      requires Valid()
      requires seekToRequest.Some? ==> consumer != null
      modifies this`calls
      ensures Valid()
      ensures seekToRequest.None? ==> calls == old(calls)
      ensures seekToRequest.Some? ==>
        calls == old(calls) + [K.Call.SeekToEnd(KafkaPartitions(seekToRequest.value.partitions))]
    {
      if seekToRequest != None {
        var topicPartitions := ToKafkaPartitions(seekToRequest.value.partitions);
        calls := calls + [K.Call.SeekToEnd(topicPartitions)];
        K.CloseCountAppend(old(calls), K.Call.SeekToEnd(topicPartitions));
      }
    }

    /**
     * One `seek(partition, offset)` per entry, in request order. The handle is
     * touched only when there is at least one entry.
     */
    method SeekToOffset(seekToOffsetRequest: Option<ConsumerSeekToOffsetRequest>)
      requires Valid()
      requires seekToOffsetRequest.Some? && |seekToOffsetRequest.value.offsets| > 0 ==> consumer != null
      modifies this`calls
      ensures Valid()
      ensures seekToOffsetRequest.None? ==> calls == old(calls)
      ensures seekToOffsetRequest.Some? ==> calls == old(calls) + SeekCalls(seekToOffsetRequest.value.offsets)
    {
      if seekToOffsetRequest != None {
        var offsets := seekToOffsetRequest.value.offsets;
        var i := 0;
        while i < |offsets|
          invariant 0 <= i <= |offsets|
          invariant calls == old(calls) + SeekCalls(offsets[..i])
          invariant K.CloseCount(calls) == K.CloseCount(old(calls))
        {
          var t := offsets[i];
          var topicPartition := K.TopicPartition(t.topic, t.partition);
          K.CloseCountAppend(calls, K.Call.Seek(topicPartition, t.offset));
          calls := calls + [K.Call.Seek(topicPartition, t.offset)];
          assert offsets[..i + 1][..i] == offsets[..i];
          i := i + 1;
        }
        assert offsets[..|offsets|] == offsets;
      }
    }

    /** Replaces the assignment with exactly the requested partitions; no request, no call. */
    method Assign(assignmentRequest: Option<ConsumerAssignmentRequest>)
      requires Valid()
      requires assignmentRequest.Some? ==> consumer != null
      modifies this`calls, handle
      ensures Valid()
      ensures assignmentRequest.None? ==> calls == old(calls) && unchanged(handle)
      ensures assignmentRequest.Some? ==>
        var topicPartitions := KafkaPartitions(assignmentRequest.value.partitions);
        && calls == old(calls) + [K.Call.Assign(topicPartitions)]
        && handle.assignedPartitions == (set p | p in topicPartitions)
        && handle.committedOffsets == old(handle.committedOffsets)
        && handle.subscribedTopics == old(handle.subscribedTopics)
        && handle.subscribedPattern == old(handle.subscribedPattern)
    {
      if assignmentRequest != None {
        var topicPartitions := ToKafkaPartitions(assignmentRequest.value.partitions);
        consumer.Assign(topicPartitions);
        calls := calls + [K.Call.Assign(topicPartitions)];
        K.CloseCountAppend(old(calls), K.Call.Assign(topicPartitions));
      }
    }

    // --- lifecycle, subscription ----------------------------------------------

    /** Closes the handle if it is still there and forgets it; the handle is closed at most once. */
    method Close()
      requires Valid()
      modifies this`consumer, this`calls
      ensures Valid() && consumer == null
      ensures old(consumer) != null ==> calls == old(calls) + [K.Call.Close]
      ensures old(consumer) == null ==> calls == old(calls)
      ensures K.CloseCount(calls) == 1
    {
      if consumer != null {
        calls := calls + [K.Call.Close];
        K.CloseCountAppend(old(calls), K.Call.Close);
      }
      consumer := null;
    }

    /**
     * Subscribes to the explicit topic list if there is one, else to the pattern if
     * there is one. A null request, or a closed session, changes nothing.
     */
    method Subscribe(subscription: Option<ConsumerSubscriptionRecord>)
      requires Valid()
      modifies this`calls, handle
      ensures Valid()
      ensures subscription.None? || consumer == null ==> calls == old(calls) && unchanged(handle)
      ensures subscription.Some? && consumer != null && subscription.value.topics.Some? ==>
        && calls == old(calls) + [K.Call.Subscribe(subscription.value.topics.value)]
        && handle.subscribedTopics == (set t | t in subscription.value.topics.value)
        && handle.subscribedPattern == None
        && handle.committedOffsets == old(handle.committedOffsets)
        && handle.assignedPartitions == old(handle.assignedPartitions)
      ensures subscription.Some? && consumer != null && subscription.value.topics.None?
              && subscription.value.topicPattern.Some? ==>
        && calls == old(calls) + [K.Call.SubscribePattern(subscription.value.topicPattern.value)]
        && handle.subscribedTopics == {}
        && handle.subscribedPattern == subscription.value.topicPattern
        && handle.committedOffsets == old(handle.committedOffsets)
        && handle.assignedPartitions == old(handle.assignedPartitions)
      ensures subscription.Some? && subscription.value.topics.None? && subscription.value.topicPattern.None? ==>
        calls == old(calls) && unchanged(handle)
    {
      if subscription == None {
        return;
      }
      if consumer != null {
        if subscription.value.topics != None {
          var topics := subscription.value.topics.value;
          consumer.Subscribe(topics);
          calls := calls + [K.Call.Subscribe(topics)];
          K.CloseCountAppend(old(calls), K.Call.Subscribe(topics));
        } else if subscription.value.topicPattern != None {
          var pattern := subscription.value.topicPattern.value;
          consumer.SubscribePattern(pattern);
          calls := calls + [K.Call.SubscribePattern(pattern)];
          K.CloseCountAppend(old(calls), K.Call.SubscribePattern(pattern));
        }
      }
    }

    /** Drops the subscription; a closed session changes nothing. */
    method Unsubscribe()
      requires Valid()
      modifies this`calls, handle
      ensures Valid()
      ensures consumer == null ==> calls == old(calls) && unchanged(handle)
      ensures consumer != null ==>
        && calls == old(calls) + [K.Call.Unsubscribe]
        && handle.subscribedTopics == {} && handle.subscribedPattern == None
        && handle.assignedPartitions == {}
        && handle.committedOffsets == old(handle.committedOffsets)
    {
      if consumer != null {
        consumer.Unsubscribe();
        calls := calls + [K.Call.Unsubscribe];
        K.CloseCountAppend(old(calls), K.Call.Unsubscribe);
      }
    }

    /** The subscribed topics, or `null` once closed. */
    method Subscription() returns (currSubscription: Option<set<string>>)
      requires Valid()
      ensures consumer == null ==> currSubscription == None
      ensures consumer != null ==> currSubscription == Some(handle.subscribedTopics)
    {
      currSubscription := None;
      if consumer != null {
        var topics := consumer.Subscription();
        currSubscription := Some(topics);
      }
    }

    /** The assigned partitions, or `null` once closed. */
    method Assignment() returns (currAssignment: Option<set<K.TopicPartition>>)
      requires Valid()
      ensures consumer == null ==> currAssignment == None
      ensures consumer != null ==> currAssignment == Some(handle.assignedPartitions)
    {
      currAssignment := None;
      if consumer != null {
        var partitions := consumer.Assignment();
        currAssignment := Some(partitions);
      }
    }

    /**
     * The last committed position of each requested partition that has one, in
     * request order; empty once closed. The request is read only while open.
     */
    method Committed(request: Option<ConsumerCommittedRequest>) returns (response: ConsumerCommittedResponse)
      requires Valid()
      requires consumer != null ==> request.Some?
      ensures consumer == null ==> response.offsets == []
      ensures consumer != null ==>
        response.offsets == CommittedEntries(request.value.partitions, handle.committedOffsets)
    {
      response := ConsumerCommittedResponse([]);
      if consumer != null {
        var ps := request.value.partitions;
        var i := 0;
        while i < |ps|
          invariant 0 <= i <= |ps|
          invariant response.offsets == CommittedEntries(ps[..i], consumer.committedOffsets)
        {
          var partition := ToKafka(ps[i]);
          var offsetMetadata := consumer.Committed(partition);
          if offsetMetadata != None {
            response := response.(offsets := response.offsets +
              [TopicPartitionOffsetMetadata(partition.topic, partition.partition,
                                            offsetMetadata.value.offset, offsetMetadata.value.metadata)]);
          }
          assert ps[..i + 1][..i] == ps[..i];
          i := i + 1;
        }
        assert ps[..|ps|] == ps;
      }
    }

    // --- expiration and ordering -----------------------------------------------

    /**
     * The deadline has been reached. This is exactly when no time is left, as long
     * as `expiration - now` fits in a `long`.
     */
    function Expired(nowMs: Long): (expired: bool)
      reads this
      ensures MinLong <= expiration - nowMs <= MaxLong ==> (expired <==> UntilExpiration(nowMs) <= 0)
    {
      expiration <= nowMs
    }

    /** Resets the deadline to `now + timeout`, whatever it was before. */
    method UpdateExpiration(nowMs: Long, timeoutMs: Int32)
      modifies this`expiration
      ensures expiration == WrapLong(nowMs + timeoutMs)
      ensures MinLong <= nowMs + timeoutMs <= MaxLong ==> expiration == nowMs + timeoutMs
      ensures MinLong <= nowMs + timeoutMs <= MaxLong && timeoutMs > 0 ==> !Expired(nowMs)
    {
      expiration := WrapLong(nowMs + timeoutMs);
    }

    /** Milliseconds left before the deadline (`long` subtraction; negative once past it). */
    function UntilExpiration(nowMs: Long): (r: Long)
      reads this
      ensures MinLong <= expiration - nowMs <= MaxLong ==> r == expiration - nowMs
    {
      WrapLong(expiration - nowMs)
    }

    /** Orders sessions by deadline: negative, zero or positive as this one expires earlier, together or later. */
    function CompareTo<S>(o: KafkaConsumerState<S>): (c: int)
      reads this, o
      ensures c == -1 || c == 0 || c == 1
      ensures c < 0 <==> expiration < o.expiration
      ensures c == 0 <==> expiration == o.expiration
      ensures c > 0 <==> expiration > o.expiration
    {
      if expiration < o.expiration then -1
      else if expiration == o.expiration then 0
      else 1
    }
  }

  // ---------------------------------------------------------------------------
  // Helpers for the loops that build the Kafka-side arguments
  // ---------------------------------------------------------------------------

  /** The loop that copies the client's partitions into a `Vector<TopicPartition>`. */
  method ToKafkaPartitions(ps: seq<Entities.TopicPartition>) returns (topicPartitions: seq<K.TopicPartition>)
    ensures topicPartitions == KafkaPartitions(ps)
    ensures |topicPartitions| == |ps|
  {
    topicPartitions := [];
    var i := 0;
    while i < |ps|
      invariant 0 <= i <= |ps|
      invariant |topicPartitions| == i
      invariant forall k :: 0 <= k < i ==> topicPartitions[k] == ToKafka(ps[k])
    {
      topicPartitions := topicPartitions + [K.TopicPartition(ps[i].topic, ps[i].partition)];
      i := i + 1;
    }
  }

  /** The loop that fills the `HashMap` of offsets to commit, entry by entry. */
  method ToOffsetMap(offsets: seq<TopicPartitionOffsetMetadata>)
    returns (offsetMap: map<K.TopicPartition, K.OffsetAndMetadata>)
    ensures offsetMap == OffsetMapOf(offsets)
    ensures offsetMap.Keys == (set t | t in offsets :: PartitionOf(t))
  {
    offsetMap := map[];
    var i := 0;
    while i < |offsets|
      invariant 0 <= i <= |offsets|
      invariant offsetMap == OffsetMapOf(offsets[..i])
    {
      var t := offsets[i];
      var key := K.TopicPartition(t.topic, t.partition);
      if t.metadata == None {
        offsetMap := offsetMap[key := K.OffsetAndMetadata(WrapLong(t.offset + 1), None)];
      } else {
        offsetMap := offsetMap[key := K.OffsetAndMetadata(WrapLong(t.offset + 1), Some(t.metadata.value))];
      }
      assert offsets[..i + 1][..i] == offsets[..i];
      i := i + 1;
    }
    assert offsets[..|offsets|] == offsets;
    forall p ensures p in offsetMap <==> p in (set t | t in offsets :: PartitionOf(t)) {
      OffsetMapOfLastWins(offsets, p);
    }
  }

  // ---------------------------------------------------------------------------
  // Properties across several calls
  // ---------------------------------------------------------------------------

  /**
   * A refill on an exhausted session followed by `|polled|` calls to `next`
   * hands out exactly the polled records in fetch order; one more `next` yields `null`.
   */
  method ReadFreshBatch<R>(s: KafkaConsumerState<R>, timeout: Long, polled: seq<R>)
    returns (delivered: seq<R>, afterLast: Option<R>)
    requires s.Valid() && !s.HasNext() && s.consumer != null
    modifies s
    ensures s.Valid()
    ensures delivered == polled && afterLast == None
  {
    s.GetOrCreateConsumerRecords(timeout, polled);
    delivered := [];
    for k := 0 to |polled|
      invariant s.Valid()
      invariant delivered == polled[..k]
      invariant s.Unread() == polled[k..]
    {
      var r := s.Next();
      delivered := delivered + [r.value];
      assert polled[..k + 1] == polled[..k] + [polled[k]];
    }
    assert polled[..|polled|] == polled;
    afterLast := s.Next();
  }

  /** `peek` does not move the cursor: the record it shows is the one the next `next` hands out. */
  method PeekThenNext<R>(s: KafkaConsumerState<R>) returns (peeked: Option<R>, again: Option<R>, taken: Option<R>)
    requires s.Valid()
    modifies s
    ensures peeked == again == taken
    ensures peeked == old(s.Peek())
  {
    peeked := s.Peek();
    again := s.Peek();
    taken := s.Next();
  }

  /** When `expiration - now` overflows, `long` subtraction makes an expired session report time left. */
  lemma ExpiredWithTimeLeftOnOverflow<R>(s: KafkaConsumerState<R>)
    requires s.expiration == MinLong
    ensures s.Expired(1) && s.UntilExpiration(1) == MaxLong
  {
  }

  lemma CompareToAntisymmetric<R, S>(a: KafkaConsumerState<R>, b: KafkaConsumerState<S>)
    ensures a.CompareTo(b) == -b.CompareTo(a)
  {
  }

  lemma CompareToTransitive<R, S, T>(a: KafkaConsumerState<R>, b: KafkaConsumerState<S>, c: KafkaConsumerState<T>)
    ensures a.CompareTo(b) <= 0 && b.CompareTo(c) <= 0 ==> a.CompareTo(c) <= 0
    ensures a.CompareTo(b) < 0 && b.CompareTo(c) < 0 ==> a.CompareTo(c) < 0
  {
  }
}
