/** `Channel<T,N>`: a fixed-capacity ring buffer with a read index, a write
    index and a `full` flag that tells a full buffer from an empty one when
    the two indices meet. The capacity N is the length of `buf`. */
module Channels {
  import opened Base

  datatype Channel<T> = Channel(buf: seq<T>, rptr: nat, wptr: nat, full: bool)

  /** The capacity N. */
  function Cap<T>(c: Channel<T>): nat
  {
    |c.buf|
  }

  /** The representation invariant: both indices lie in [0, N), and `full`
      is only ever set when they coincide. */
  predicate Valid<T>(c: Channel<T>)
  {
    && 0 < |c.buf|
    && c.rptr < |c.buf|
    && c.wptr < |c.buf|
    && (c.full ==> c.rptr == c.wptr)
  }

  /** A freshly constructed channel over the (default-initialised) storage `buf`. */
  function Init<T>(buf: seq<T>): (c: Channel<T>)
    requires 0 < |buf|
    ensures Valid(c) && Cap(c) == |buf|
    ensures Contents(c) == []
  {
    Channel(buf, 0, 0, false)
  }

  /** An index incremented and wrapped to 0 when it reaches N. */
  function Advance(p: nat, n: nat): (q: nat)
    requires p < n
    ensures q < n
    ensures q == (p + 1) % n
  {
    if p + 1 == n then 0 else p + 1
  }

  /** Occupancy: N when `full`, otherwise the distance from the read index
      forward to the write index. */
  function Count<T>(c: Channel<T>): (k: nat)
    requires Valid(c)
    ensures k <= Cap(c)
    ensures c.full ==> k == Cap(c)
    ensures !c.full ==> k == (c.wptr - c.rptr) % Cap(c) && k < Cap(c)
  {
    if c.full then |c.buf|
    else if c.rptr <= c.wptr then c.wptr - c.rptr
    else c.wptr + |c.buf| - c.rptr
  }

  /** The buffer position of the `i`-th unread value. */
  function Slot<T>(c: Channel<T>, i: nat): (p: nat)
    requires Valid(c) && i < Cap(c)
    ensures p < Cap(c)
    ensures p == (c.rptr + i) % Cap(c)
  {
    if c.rptr + i < |c.buf| then c.rptr + i else c.rptr + i - |c.buf|
  }

  /** The abstract queue the buffer holds: the unread values, oldest first. */
  ghost function Contents<T>(c: Channel<T>): (q: seq<T>)
    requires Valid(c)
    ensures |q| == Count(c)
  {
    seq(Count(c), i requires 0 <= i < Count(c) => c.buf[Slot(c, i)])
  }

  /** `_readable()`: some value is unread. */
  function Readable<T>(c: Channel<T>): (b: bool)
    requires Valid(c)
    ensures b <==> Contents(c) != []
  {
    c.rptr != c.wptr || c.full
  }

  /** `_writeable()`: there is room for one more value. */
  function Writeable<T>(c: Channel<T>): (b: bool)
    requires Valid(c)
    ensures b <==> |Contents(c)| < Cap(c)
  {
    !c.full
  }

  /** `_read()`: takes the value at the read index and advances that index. */
  function RawRead<T>(c: Channel<T>): (r: (T, Channel<T>))
    requires Valid(c) && Readable(c)
    ensures Valid(r.1) && Cap(r.1) == Cap(c)
    ensures r.0 == Contents(c)[0] && Contents(r.1) == Contents(c)[1..]
    ensures r.0 == c.buf[c.rptr]
    ensures r.1.rptr == (c.rptr + 1) % Cap(c) && !r.1.full
    ensures r.1.wptr == c.wptr && r.1.buf == c.buf
  {
    (c.buf[c.rptr], c.(rptr := Advance(c.rptr, |c.buf|), full := false))
  }

  /** `_write(x)`: stores `x` at the write index, advances that index, and
      sets `full` exactly when the indices now coincide. */
  function RawWrite<T>(c: Channel<T>, x: T): (r: Channel<T>)
    requires Valid(c) && Writeable(c)
    ensures Valid(r) && Cap(r) == Cap(c)
    ensures Contents(r) == Contents(c) + [x]
    ensures r.buf == c.buf[c.wptr := x]
    ensures r.wptr == (c.wptr + 1) % Cap(c)
    ensures r.full <==> r.rptr == r.wptr
    ensures r.rptr == c.rptr
  {
    var w := Advance(c.wptr, |c.buf|);
    c.(buf := c.buf[c.wptr := x], wptr := w, full := c.rptr == w)
  }

  /** `read()`: aborts on an empty channel, otherwise removes the oldest value. */
  function Read<T>(c: Channel<T>): (r: Result<(T, Channel<T>)>)
    requires Valid(c)
    ensures r.Aborted? <==> Contents(c) == []
    ensures r.Ok? ==> Valid(r.value.1) && Cap(r.value.1) == Cap(c)
    ensures r.Ok? ==> r.value.0 == Contents(c)[0] && Contents(r.value.1) == Contents(c)[1..]
  {
    if !Readable(c) then Aborted else Ok(RawRead(c))
  }

  /** `write(x)`: aborts on a full channel, otherwise appends `x`. */
  function Write<T>(c: Channel<T>, x: T): (r: Result<Channel<T>>)
    requires Valid(c)
    ensures r.Aborted? <==> |Contents(c)| == Cap(c)
    ensures r.Ok? ==> Valid(r.value) && Cap(r.value) == Cap(c)
    ensures r.Ok? ==> Contents(r.value) == Contents(c) + [x]
  {
    if !Writeable(c) then Aborted else Ok(RawWrite(c, x))
  }

  /** `readTry()`: an empty result and an untouched channel when nothing is
      readable, otherwise the oldest value, removed. */
  function ReadTry<T>(c: Channel<T>): (r: (Option<T>, Channel<T>))
    requires Valid(c)
    ensures Valid(r.1) && Cap(r.1) == Cap(c)
    ensures r.0.None? <==> Contents(c) == []
    ensures r.0.None? ==> r.1 == c
    ensures r.0.Some? ==> r.0.value == Contents(c)[0] && Contents(r.1) == Contents(c)[1..]
  {
    if !Readable(c) then (None, c)
    else var (v, c') := RawRead(c); (Some(v), c')
  }

  /** `writeTry(x)`: false and an untouched channel when full, otherwise
      true with `x` appended. */
  function WriteTry<T>(c: Channel<T>, x: T): (r: (bool, Channel<T>))
    requires Valid(c)
    ensures Valid(r.1) && Cap(r.1) == Cap(c)
    ensures !r.0 <==> |Contents(c)| == Cap(c)
    ensures !r.0 ==> r.1 == c
    ensures r.0 ==> Contents(r.1) == Contents(c) + [x]
  {
    if !Writeable(c) then (false, c) else (true, RawWrite(c, x))
  }

  /** `reset()`: discards every buffered value. */
  function Reset<T>(c: Channel<T>): (r: Channel<T>)
    requires 0 < Cap(c)
    ensures Valid(r) && Cap(r) == Cap(c)
    ensures Contents(r) == []
    ensures !Readable(r) && Writeable(r)
    ensures r.rptr == 0 && r.wptr == 0 && !r.full
  {
    c.(rptr := 0, wptr := 0, full := false)
  }
}
