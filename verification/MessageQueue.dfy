/** The Redis list between two nodes: the operations of redis/redis.go on a sequence, and a
    sender's push-and-trim from nodes/node.go. */
module MessageQueue {

  const MQ_MAX_LEN := 1000
  const MQ_LEN_AFTER_TRIM := 500

  /** Redis LTRIM: negative positions count from the end; an empty range empties the list. */
  function LTrim<B>(l: seq<B>, start: int, stop: int): seq<B> {
    var from := if start < 0 then start + |l| else start;
    var to := if stop < 0 then stop + |l| else stop;
    var lo := if from < 0 then 0 else from;
    if lo > to || lo >= |l| then []
    else l[lo..(if to >= |l| then |l| else to + 1)]
  }

  function TrimMQ<B>(l: seq<B>, len: nat): seq<B> { LTrim(l, -(len as int), -1) }

  function ClearMQ<B>(l: seq<B>): seq<B> { LTrim(l, 1, 0) }

  /** Trimming keeps the latest `len` batches; clearing keeps none. */
  lemma TrimKeepsLatest<B>(l: seq<B>, len: nat)
    requires len > 0
    ensures TrimMQ(l, len) == if |l| <= len then l else l[|l| - len..]
    ensures ClearMQ(l) == []
  {
  }

  class RedisList<B> {
    var items: seq<B>

    constructor ()
      ensures items == []
    {
      items := [];
    }

    method PushMsgToMQ(msg: B) returns (length: nat)
      modifies this
      ensures items == old(items) + [msg] && length == |items|
    {
      items := items + [msg];
      length := |items|;
    }

    method Trim(len: nat)
      modifies this
      ensures items == TrimMQ(old(items), len)
    {
      items := LTrim(items, -(len as int), -1);
    }

    method Clear()
      modifies this
      ensures items == []
    {
      items := LTrim(items, 1, 0);
    }

    /** None when the list stays empty until the time-out. */
    method BlockPopMQ() returns (found: bool, msg: seq<B>)
      modifies this
      ensures found <==> old(items) != []
      ensures found ==> msg == [old(items)[0]] && items == old(items)[1..]
      ensures !found ==> msg == [] && items == old(items)
    {
      found := |items| > 0;
      if found {
        msg, items := [items[0]], items[1..];
      } else {
        msg := [];
      }
    }

    /** sendBatchReq with no other sender in between. */
    method SendBatchReq(batch: B)
      modifies this
      ensures |old(items)| < MQ_MAX_LEN ==> items == old(items) + [batch]
      ensures |old(items)| >= MQ_MAX_LEN ==>
                |items| == MQ_LEN_AFTER_TRIM && items == (old(items) + [batch])[|old(items)| + 1 - MQ_LEN_AFTER_TRIM..]
    {
      var length := PushMsgToMQ(batch);
      if length > MQ_MAX_LEN {
        TrimKeepsLatest(items, MQ_LEN_AFTER_TRIM);
        Trim(MQ_LEN_AFTER_TRIM);
      }
    }
  }
}
