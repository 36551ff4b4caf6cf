/** The ring buffer refines the abstract bounded FIFO: every sequence of
    calls on a channel gives the same replies and aborts at the same point
    as the same calls on the queue the channel holds. */
module ChannelRefinement {
  import opened Base
  import opened Fifo
  import opened Channels

  /** One public call on the channel (each is atomic: it runs under an
      interrupt-mask guard). It is the same call on the abstract queue: it
      aborts exactly when the queue step does, gives the same reply, and
      leaves the channel holding the queue the step leaves. */
  function Apply<T>(c: Channel<T>, op: Op<T>): (r: Result<(Reply<T>, Channel<T>)>)
    requires Valid(c)
    ensures r.Ok? ==> Valid(r.value.1) && Cap(r.value.1) == Cap(c)
    ensures r.Aborted? <==> Step(Contents(c), Cap(c), op).Aborted?
    ensures r.Ok? ==> r.value.0 == Step(Contents(c), Cap(c), op).value.0
    ensures r.Ok? ==> Contents(r.value.1) == Step(Contents(c), Cap(c), op).value.1
  {
    match op
    case ReadableOp => Ok((Flag(Readable(c)), c))
    case WriteableOp => Ok((Flag(Writeable(c)), c))
    case ReadOp =>
      (match Read(c)
       case Aborted => Aborted
       case Ok((v, c')) => Ok((Value(v), c')))
    case WriteOp(x) =>
      (match Write(c, x)
       case Aborted => Aborted
       case Ok(c') => Ok((Done, c')))
    case ReadTryOp =>
      (match ReadTry(c)
       case (None, c') => Ok((NoValue, c'))
       case (Some(v), c') => Ok((Value(v), c')))
    case WriteTryOp(x) =>
      var (ok, c') := WriteTry(c, x); Ok((Flag(ok), c'))
    case ResetOp => Ok((Done, Reset(c)))
  }

  /** Performs `ops` in order on the channel; the first abort ends the run. */
  function ApplyAll<T>(c: Channel<T>, ops: seq<Op<T>>): (r: Result<(seq<Reply<T>>, Channel<T>)>)
    requires Valid(c)
    ensures r.Ok? ==> Valid(r.value.1) && Cap(r.value.1) == Cap(c) && |r.value.0| == |ops|
    decreases |ops|
  {
    if ops == [] then Ok(([], c))
    else
      match Apply(c, ops[0])
      case Aborted => Aborted
      case Ok((rep, c')) => Prefix([rep], ApplyAll(c', ops[1..]))
  }

  /** The abstract view of a run's outcome: the channel replaced by its contents. */
  ghost function Abs<T>(r: Result<(seq<Reply<T>>, Channel<T>)>): Result<(seq<Reply<T>>, seq<T>)>
    requires r.Ok? ==> Valid(r.value.1)
  {
    match r
    case Aborted => Aborted
    case Ok((reps, c)) => Ok((reps, Contents(c)))
  }

  /** Any sequence of calls on the channel is the same sequence of calls on
      its abstract queue: same replies, same abort, and the final channel
      holds the final queue. */
  lemma {:induction false} ApplyAllRefinesRun<T>(c: Channel<T>, ops: seq<Op<T>>)
    requires Valid(c)
    ensures Abs(ApplyAll(c, ops)) == Run(Contents(c), Cap(c), ops)
    decreases |ops|
  {
    if ops != [] {
      match Apply(c, ops[0])
      case Aborted =>
      case Ok((rep, c')) =>
        ApplyAllRefinesRun(c', ops[1..]);
    }
  }

  /** FIFO round trip on the ring buffer: on an empty channel of capacity
      N, writing v1..vk (k <= N) and then reading k times yields v1..vk in
      order, and the channel is empty again. */
  lemma ChannelRoundTrip<T>(c: Channel<T>, vs: seq<T>)
    requires Valid(c) && Contents(c) == [] && |vs| <= Cap(c)
    ensures ApplyAll(c, Writes(vs) + Reads(|vs|)).Ok?
    ensures ApplyAll(c, Writes(vs) + Reads(|vs|)).value.0 == Dones(|vs|) + Values(vs)
    ensures !Readable(ApplyAll(c, Writes(vs) + Reads(|vs|)).value.1)
  {
    ApplyAllRefinesRun(c, Writes(vs) + Reads(|vs|));
    RoundTrip(Cap(c), vs);
  }

  /** After `reset()` and N writes with no reads between, the channel is
      readable and no longer writeable; after N further reads it is not
      readable. */
  lemma FillThenDrain<T>(c: Channel<T>, vs: seq<T>)
    requires 0 < Cap(c) && |vs| == Cap(c)
    ensures var full := ApplyAll(Reset(c), Writes(vs));
      && full.Ok? && Readable(full.value.1) && !Writeable(full.value.1)
      && ApplyAll(full.value.1, Reads(|vs|)).Ok?
      && !Readable(ApplyAll(full.value.1, Reads(|vs|)).value.1)
  {
    var c0 := Reset(c);
    WritesAppend([], Cap(c), vs, []);
    assert Writes(vs) + [] == Writes(vs);
    assert [] + vs == vs;
    ApplyAllRefinesRun(c0, Writes(vs));
    var full := ApplyAll(c0, Writes(vs)).value.1;
    assert Contents(full) == vs;
    ReadsTakeFront(vs, Cap(c), |vs|, []);
    assert Reads<T>(|vs|) + [] == Reads(|vs|);
    assert vs[|vs|..] == [];
    ApplyAllRefinesRun(full, Reads(|vs|));
  }
}
