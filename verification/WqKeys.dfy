/** The names a work queue uses in Redis, and the small codes it stores there
    (wq/src/lib.rs, wq/src/builder.rs). */
module WqKeys {
  import opened Prelude

  datatype Priority = High | Normal | Low {
    function Score(): int {
      match this
      case High => -10
      case Normal => -5
      case Low => -1
    }
  }

  /** What `ZPOPMIN` hands back is a number; only the three scores are accepted. */
  function PriorityFromScore(v: int): Option<Priority> {
    if v == -10 then Some(High)
    else if v == -5 then Some(Normal)
    else if v == -1 then Some(Low)
    else None
  }

  datatype JobStatus = Pending | Running | Success | Failure | InternalError {
    predicate IsResolved() {
      Success? || Failure? || InternalError?
    }

    function ToByte(): int {
      match this
      case Pending => 0
      case Running => 1
      case Success => 10
      case Failure => 11
      case InternalError => 12
    }
  }

  function StatusFromByte(b: int): Option<JobStatus> {
    if b == 0 then Some(Pending)
    else if b == 1 then Some(Running)
    else if b == 10 then Some(Success)
    else if b == 11 then Some(Failure)
    else if b == 12 then Some(InternalError)
    else None
  }

  /** Both codes are read back as what was written, and nothing else is read as it. */
  lemma CodesRoundTrip(p: Priority, v: int, s: JobStatus, b: int)
    ensures PriorityFromScore(v) == Some(p) <==> p.Score() == v
    ensures StatusFromByte(b) == Some(s) <==> s.ToByte() == b
  {
  }

  const MAX_PARTITION_LEN := 64

  predicate IsPartitionChar(c: char) {
    'a' <= c <= 'z' || 'A' <= c <= 'Z' || '0' <= c <= '9' || c in ".-_+"
  }

  /** The source bounds the length in bytes; every accepted character is one byte. */
  predicate ValidPartition(p: string) {
    0 < |p| <= MAX_PARTITION_LEN && forall i :: 0 <= i < |p| ==> IsPartitionChar(p[i])
  }

  /** A partition in its stored form: `None` is the default partition. */
  type Partition = Option<string>

  predicate WellNamed(p: Partition) {
    p.Some? ==> ValidPartition(p.value)
  }

  /** A queue's name and the name given to its default partition, if any. All keys follow
      from them (wq/src/builder.rs:45-56). */
  datatype Keys = Keys(name: string, defaultPartition: Option<string>) {
    function Base(): string { "wq:" + name + ":" }

    function Normalize(request: Option<string>): (r: Result<Partition, string>)
      ensures r.Ok? <==> WellNamed(request)
      ensures r.Ok? ==> WellNamed(r.value)
    {
      if request.None? then Ok(None)
      else if !ValidPartition(request.value) then Err(request.value)
      else if defaultPartition == request then Ok(None)
      else Ok(request)
    }

    /** The sorted set of a partition, and the channel that announces additions to it. */
    function Pending(p: Partition): string {
      Base() + PendingTail(p)
    }

    /** Every other key of the queue: the claims, the partitions, and the job, result,
        resolved, stats and claim keys, which carry a suffix. */
    ghost predicate IsOtherKey(k: string) {
      exists tail :: IsOtherTail(tail) && k == Base() + tail
    }
  }

  function PendingTail(p: Partition): string {
    match p
    case None => "queue"
    case Some(name) => "partition:" + name + ":queue"
  }

  ghost predicate IsOtherTail(tail: string) {
    || tail == "claims"
    || tail == "partitions"
    || exists head :: head in {"queue:", "results:", "resolved:", "stats:", "claims:"} && Heads(head, tail)
  }

  predicate Heads(head: string, s: string) { head <= s }

  lemma PrefixCancels(base: string, a: string, b: string)
    ensures base + a == base + b <==> a == b
  {
    assert (base + a)[|base|..] == a && (base + b)[|base|..] == b;
  }

  /** Two partitions never share a sorted set. */
  lemma PendingInjective(k: Keys, p: Partition, q: Partition)
    ensures k.Pending(p) == k.Pending(q) <==> p == q
  {
    var tp, tq := PendingTail(p), PendingTail(q);
    PrefixCancels(k.Base(), tp, tq);
    assert p.Some? ==> tp[0] == 'p' && tp[10..|tp| - 6] == p.value;
    assert q.Some? ==> tq[0] == 'p' && tq[10..|tq| - 6] == q.value;
    assert (p.None? ==> tp[0] == 'q') && (q.None? ==> tq[0] == 'q');
  }

  /** Two accepted requests reach the same sorted set exactly when they name the same
      partition, the default one being reached by its name or by none. */
  lemma RequestsMeetExactlyInOnePartition(k: Keys, a: Option<string>, b: Option<string>)
    requires k.Normalize(a).Ok? && k.Normalize(b).Ok?
    ensures k.Pending(k.Normalize(a).value) == k.Pending(k.Normalize(b).value)
       <==> a == b || ({a, b} <= {None, k.defaultPartition})
  {
    PendingInjective(k, k.Normalize(a).value, k.Normalize(b).value);
  }

  /** No sorted set is stored under a key the queue uses for anything else. */
  lemma PendingDisjoint(k: Keys, p: Partition, other: string)
    requires k.IsOtherKey(other)
    ensures k.Pending(p) != other
  {
    var tail :| IsOtherTail(tail) && other == k.Base() + tail;
    var tp := PendingTail(p);
    PrefixCancels(k.Base(), tp, tail);
    assert p.None? ==> tp == "queue";
    assert p.Some? ==> tp[0] == 'p' && tp[9] == ':';
    if tail == "partitions" {
      assert tail[0] == 'p' && tail[9] == 's';
    } else if tail == "claims" {
      assert tail[0] == 'c';
    } else {
      var head :| head in {"queue:", "results:", "resolved:", "stats:", "claims:"} && Heads(head, tail);
      assert tail[0] == head[0] && |head| <= |tail|;
    }
  }

  // Claims ----------------------------------------------------------------------------------------

  /** Identifiers are compared by when they were made. */
  type JobId = nat

  datatype Claim = Claim(jobId: JobId, priority: Priority, workerId: string, time: int, partition: Partition)

  function Abs(x: int): nat { if x < 0 then -x else x }

  predicate TooOld(c: Claim, now: int, timeout: nat) {
    Abs(now - c.time) > timeout
  }
}
