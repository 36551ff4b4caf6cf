/** The abstract meaning of a channel: a first-in first-out queue holding at
    most `cap` values. The ring buffer in module Channels is proved to
    behave exactly like this queue (module ChannelRefinement). */
module Fifo {
  import opened Base

  /** One call on a channel: the public operations of `Channel<T,N>`. */
  datatype Op<T> =
    | ReadableOp
    | WriteableOp
    | ReadOp
    | WriteOp(x: T)
    | ReadTryOp
    | WriteTryOp(x: T)
    | ResetOp

  /** What a call hands back to its caller. */
  datatype Reply<T> =
    | Flag(b: bool)      // readable(), writeable(), writeTry()
    | Value(v: T)        // read(), or a readTry() that found a value
    | NoValue            // a readTry() on an empty channel
    | Done               // write(), reset()

  /** One operation on the queue `q` of capacity `cap`; reading an empty
      queue or writing a full one aborts. */
  function Step<T>(q: seq<T>, cap: nat, op: Op<T>): (r: Result<(Reply<T>, seq<T>)>)
    requires |q| <= cap
    ensures r.Aborted? <==> (op.ReadOp? && q == []) || (op.WriteOp? && |q| == cap)
    ensures r.Ok? ==> |r.value.1| <= cap
  {
    match op
    case ReadableOp => Ok((Flag(q != []), q))
    case WriteableOp => Ok((Flag(|q| < cap), q))
    case ReadOp => if q == [] then Aborted else Ok((Value(q[0]), q[1..]))
    case WriteOp(x) => if |q| == cap then Aborted else Ok((Done, q + [x]))
    case ReadTryOp => if q == [] then Ok((NoValue, q)) else Ok((Value(q[0]), q[1..]))
    case WriteTryOp(x) => if |q| == cap then Ok((Flag(false), q)) else Ok((Flag(true), q + [x]))
    case ResetOp => Ok((Done, []))
  }

  /** Prepends `pre` to the replies of a successful run; an abort stays an abort. */
  function Prefix<T, Q>(pre: seq<Reply<T>>, r: Result<(seq<Reply<T>>, Q)>): Result<(seq<Reply<T>>, Q)>
  {
    match r
    case Aborted => Aborted
    case Ok((reps, q)) => Ok((pre + reps, q))
  }

  /** Performs `ops` in order; the first abort ends the run. */
  function Run<T>(q: seq<T>, cap: nat, ops: seq<Op<T>>): (r: Result<(seq<Reply<T>>, seq<T>)>)
    requires |q| <= cap
    ensures r.Ok? ==> |r.value.0| == |ops| && |r.value.1| <= cap
    decreases |ops|
  {
    if ops == [] then Ok(([], q))
    else
      match Step(q, cap, ops[0])
      case Aborted => Aborted
      case Ok((rep, q')) => Prefix([rep], Run(q', cap, ops[1..]))
  }

  /** `write(v)` for every value of `vs`, in order. */
  function Writes<T>(vs: seq<T>): (ops: seq<Op<T>>)
    ensures |ops| == |vs|
    ensures forall i :: 0 <= i < |vs| ==> ops[i] == WriteOp(vs[i])
  {
    seq(|vs|, i requires 0 <= i < |vs| => WriteOp(vs[i]))
  }

  /** `k` calls of `read()`. */
  function Reads<T>(k: nat): (ops: seq<Op<T>>)
    ensures |ops| == k
    ensures forall i :: 0 <= i < k ==> ops[i] == ReadOp
  {
    seq(k, i => ReadOp)
  }

  /** The replies `read()` gives for the values `vs`. */
  function Values<T>(vs: seq<T>): (reps: seq<Reply<T>>)
    ensures |reps| == |vs|
    ensures forall i :: 0 <= i < |vs| ==> reps[i] == Value(vs[i])
  {
    seq(|vs|, i requires 0 <= i < |vs| => Value(vs[i]))
  }

  /** The replies of `k` calls of `write()`. */
  function Dones<T>(k: nat): (reps: seq<Reply<T>>)
    ensures |reps| == k
    ensures forall i :: 0 <= i < k ==> reps[i] == Done
  {
    seq(k, i => Done)
  }

  /** Writing `vs` into a queue with room for them appends them, in order. */
  lemma {:induction false} WritesAppend<T>(q: seq<T>, cap: nat, vs: seq<T>, rest: seq<Op<T>>)
    requires |q| + |vs| <= cap
    ensures Run(q, cap, Writes(vs) + rest) == Prefix(Dones(|vs|), Run(q + vs, cap, rest))
    decreases |vs|
  {
    if vs == [] {
      assert Writes(vs) + rest == rest;
      assert q + vs == q;
      match Run(q, cap, rest)
      case Aborted =>
      case Ok((reps, q')) => assert Dones<T>(0) + reps == reps;
    } else {
      var ops := Writes(vs) + rest;
      assert ops[0] == WriteOp(vs[0]);
      assert ops[1..] == Writes(vs[1..]) + rest;
      assert Step(q, cap, ops[0]) == Ok((Done, q + [vs[0]]));
      WritesAppend(q + [vs[0]], cap, vs[1..], rest);
      assert q + [vs[0]] + vs[1..] == q + vs;
      match Run(q + vs, cap, rest)
      case Aborted =>
      case Ok((reps, q')) =>
        assert [Done] + (Dones(|vs| - 1) + reps) == Dones(|vs|) + reps;
    }
  }

  /** Reading `k` values takes them from the front of the queue, oldest first. */
  lemma {:induction false} ReadsTakeFront<T>(q: seq<T>, cap: nat, k: nat, rest: seq<Op<T>>)
    requires |q| <= cap && k <= |q|
    ensures Run(q, cap, Reads(k) + rest) == Prefix(Values(q[..k]), Run(q[k..], cap, rest))
    decreases k
  {
    if k == 0 {
      assert Reads<T>(k) + rest == rest;
      assert q[k..] == q;
      match Run(q, cap, rest)
      case Aborted =>
      case Ok((reps, q')) => assert Values(q[..k]) + reps == reps;
    } else {
      var ops := Reads<T>(k) + rest;
      assert ops[0] == ReadOp;
      assert ops[1..] == Reads(k - 1) + rest;
      assert Step(q, cap, ops[0]) == Ok((Value(q[0]), q[1..]));
      ReadsTakeFront(q[1..], cap, k - 1, rest);
      assert q[1..][k - 1..] == q[k..];
      match Run(q[k..], cap, rest)
      case Aborted =>
      case Ok((reps, q')) =>
        assert [Value(q[0])] + (Values(q[1..][..k - 1]) + reps) == Values(q[..k]) + reps;
    }
  }

  /** FIFO round trip: on an empty queue, writing v1..vk (k <= cap) and then
      reading k times yields v1..vk in order and leaves the queue empty. */
  lemma RoundTrip<T>(cap: nat, vs: seq<T>)
    requires |vs| <= cap
    ensures Run([], cap, Writes(vs) + Reads(|vs|)) == Ok((Dones(|vs|) + Values(vs), []))
  {
    var rds := Reads<T>(|vs|);
    WritesAppend([], cap, vs, rds);
    assert [] + vs == vs;
    ReadsTakeFront(vs, cap, |vs|, []);
    assert rds + [] == rds;
    assert vs[..|vs|] == vs;
    assert vs[|vs|..] == [];
    assert Values(vs) + [] == Values(vs);
  }
}
