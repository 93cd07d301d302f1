/**
 Receiving side of the worker IPC channel: length-prefixed frames recovered from a pipe that is
 read in arbitrary chunks, by a pump that message handlers may re-enter, and by a second reader
 that runs on its own thread.
 */
module ChannelFraming {
  import opened Bytes

  const MESSAGE_MAX_LEN: nat := 4194308
  const RECV_BUFFER_MAX_LEN: nat := 16 * 1024 * 1024
  const READ_CHUNK_SIZE: nat := 65536

  // ---------------------------------------------------------------------------
  // What a byte stream means
  // ---------------------------------------------------------------------------

  /** The most bytes one `read` call may return. */
  type ReadSize = n: int | 0 < n <= READ_CHUNK_SIZE witness 1

  /** What the front of a byte sequence holds. */
  datatype Head = Incomplete | BadLength | Complete(length: nat)

  function Peek(s: seq<byte>): (h: Head)
    ensures h.Complete? ==> 0 < h.length <= MESSAGE_MAX_LEN && 4 + h.length <= |s|
  {
    if |s| < 4 then Incomplete
    else
      var n := FromLe32(s[..4]);
      if n == 0 || n > MESSAGE_MAX_LEN then BadLength
      else if 4 + n > |s| then Incomplete
      else Complete(n)
  }

  /** The messages of the longest well-framed prefix of `s`, in stream order. */
  function Frames(s: seq<byte>): seq<seq<byte>>
    decreases |s|
  {
    match Peek(s)
    case Complete(n) => [s[4..4 + n]] + Frames(s[4 + n..])
    case _ => []
  }

  /** What follows that prefix: an incomplete frame, or a frame with a bad length. */
  function Rest(s: seq<byte>): seq<byte>
    decreases |s|
  {
    match Peek(s)
    case Complete(n) => Rest(s[4 + n..])
    case _ => s
  }

  predicate Sized(m: seq<byte>) {
    0 < |m| <= MESSAGE_MAX_LEN
  }

  predicate AllSized(ms: seq<seq<byte>>) {
    forall i :: 0 <= i < |ms| ==> Sized(ms[i])
  }

  function EncodeFrame(m: seq<byte>): seq<byte>
    requires Sized(m)
  {
    Le32(|m|) + m
  }

  /** The sender's side: the byte form of a list of messages. */
  function Encode(ms: seq<seq<byte>>): seq<byte>
    requires AllSized(ms)
  {
    if ms == [] then [] else EncodeFrame(ms[0]) + Encode(ms[1..])
  }

  /** The stream `s` is the byte form of `ms` followed by `rest`. */
  ghost predicate Splits(s: seq<byte>, ms: seq<seq<byte>>, rest: seq<byte>) {
    AllSized(ms) && s == Encode(ms) + rest
  }

  lemma {:induction false} EncodeSnoc(ms: seq<seq<byte>>, m: seq<byte>)
    requires AllSized(ms) && Sized(m)
    ensures AllSized(ms + [m]) && Encode(ms + [m]) == Encode(ms) + EncodeFrame(m)
  {
    if ms == [] {
      assert ms + [m] == [m];
      assert Encode([m]) == EncodeFrame(m) + Encode([]);
    } else {
      EncodeSnoc(ms[1..], m);
      assert (ms + [m])[1..] == ms[1..] + [m];
      ConcatAssoc(EncodeFrame(ms[0]), Encode(ms[1..]), EncodeFrame(m));
    }
  }

  lemma {:induction false} PeekEncoded(m: seq<byte>, rest: seq<byte>)
    requires Sized(m)
    ensures Peek(EncodeFrame(m) + rest) == Complete(|m|)
  {
    var s := EncodeFrame(m) + rest;
    assert s[..4] == Le32(|m|);
    Le32RoundTrip(|m|);
  }

  /**
   The front of a stream, by the number whose bytes the first four are, least significant first: a
   length of nothing or of more than 4 MiB and 4 is bad, however much follows it.
   */
  lemma {:induction false} PeekByLength(s: seq<byte>, n: nat)
    requires |s| >= 4 && n < 0x1_0000_0000 && forall k: nat :: k < 4 ==> s[k] == ByteOf(n, k)
    ensures Peek(s).BadLength? <==> n == 0 || n > 4194308
    ensures Peek(s) == Complete(n) <==> 0 < n <= 4194308 && |s| >= 4 + n
    ensures Peek(s).Incomplete? <==> 0 < n <= 4194308 && |s| < 4 + n
  {
    forall k: nat | k < 4 ensures s[k] == Le32(n)[k] { PlacesOf(n, k); }
    assert s[..4] == Le32(n);
    Le32RoundTrip(n);
  }

  /** A stream splits into frames and remainder in exactly one way. */
  lemma {:induction false} DecompositionIsUnique(ms: seq<seq<byte>>, rest: seq<byte>)
    requires AllSized(ms) && !Peek(rest).Complete?
    ensures Frames(Encode(ms) + rest) == ms
    ensures Rest(Encode(ms) + rest) == rest
  {
    if ms == [] {
      assert Encode(ms) + rest == rest;
    } else {
      var m, more := ms[0], ms[1..];
      var tail := Encode(more) + rest;
      assert Frames(tail) == more && Rest(tail) == rest by { DecompositionIsUnique(more, rest); }
      assert Encode(ms) + rest == EncodeFrame(m) + tail by { ConcatAssoc(EncodeFrame(m), Encode(more), rest); }
      assert Frames(EncodeFrame(m) + tail) == [m] + more && Rest(EncodeFrame(m) + tail) == rest by { FirstFrame(m, tail); }
      assert [m] + more == ms;
    }
  }

  lemma FirstFrame(m: seq<byte>, tail: seq<byte>)
    requires Sized(m)
    ensures Frames(EncodeFrame(m) + tail) == [m] + Frames(tail) && Rest(EncodeFrame(m) + tail) == Rest(tail)
  {
    var s := EncodeFrame(m) + tail;
    PeekEncoded(m, tail);
    assert s[4..4 + |m|] == m && s[4 + |m|..] == tail;
  }

  lemma EncodeCons(m: seq<byte>, ms: seq<seq<byte>>)
    requires Sized(m) && AllSized(ms)
    ensures AllSized([m] + ms) && Encode([m] + ms) == EncodeFrame(m) + Encode(ms)
  {
    assert ([m] + ms)[1..] == ms;
  }

  /** Every stream has such a split, and `Frames`/`Rest` are it. */
  lemma {:induction false} Decomposition(s: seq<byte>)
    ensures AllSized(Frames(s)) && !Peek(Rest(s)).Complete?
    ensures Encode(Frames(s)) + Rest(s) == s
    decreases |s|
  {
    var h := Peek(s);
    if h.Complete? {
      var m, tail := s[4..4 + h.length], s[4 + h.length..];
      FrontFrame(s, h.length);
      Decomposition(tail);
      EncodeCons(m, Frames(tail));
      ConcatAssoc(EncodeFrame(m), Encode(Frames(tail)), Rest(tail));
    }
  }

  /** Later bytes never change the messages already recognised. */
  lemma FramesOfExtension(s: seq<byte>, t: seq<byte>)
    ensures Frames(s + t) == Frames(s) + Frames(Rest(s) + t)
    ensures Rest(s + t) == Rest(Rest(s) + t)
  {
    var u := Rest(s) + t;
    var ms, rest := Frames(s) + Frames(u), Rest(u);
    assert AllSized(ms) && !Peek(rest).Complete? && s + t == Encode(ms) + rest by {
      Decomposition(s);
      Decomposition(u);
      EncodeAppend(Frames(s), Frames(u));
      Reassociate(s, Encode(Frames(s)), Rest(s), t, Encode(Frames(u)), rest);
    }
    DecompositionIsUnique(ms, rest);
  }

  lemma Reassociate(s: seq<byte>, a: seq<byte>, b: seq<byte>, t: seq<byte>, c: seq<byte>, d: seq<byte>)
    requires s == a + b && b + t == c + d
    ensures s + t == (a + c) + d
  {
    assert s + t == a + (b + t);
  }

  lemma {:induction false} EncodeAppend(a: seq<seq<byte>>, b: seq<seq<byte>>)
    requires AllSized(a) && AllSized(b)
    ensures AllSized(a + b) && Encode(a + b) == Encode(a) + Encode(b)
  {
    if a == [] {
      assert a + b == b;
    } else {
      var ab, tail := a + b, a[1..] + b;
      assert AllSized(tail) && Encode(tail) == Encode(a[1..]) + Encode(b) by { EncodeAppend(a[1..], b); }
      assert ab == [a[0]] + tail;
      EncodeCons(a[0], tail);
      ConcatAssoc(EncodeFrame(a[0]), Encode(a[1..]), Encode(b));
    }
  }

  // ---------------------------------------------------------------------------
  // The environment of one pump call
  // ---------------------------------------------------------------------------

  /**
   One call of the pump as its surroundings decide it: how many bytes each `read` may return,
   how the reads end, and what the handler of each message dispatched by this call does. A
   handler may call the pump again (to any depth), close the channel, or find the message
   malformed. Messages beyond the list have a handler that does nothing.
   */
  datatype PumpCall = PumpCall(sizes: seq<ReadSize>, end: ReadEnd, handlers: seq<Handler>)
  datatype ReadEnd = WouldBlock | EofOrError
  datatype Handler = Handler(actions: seq<Action>, accepts: bool)
  datatype Action = Reenter(call: PumpCall) | CloseChannel

  /** How a pump call ended; the source returns `true` exactly for `Drained`. */
  datatype PumpResult = Drained | StoppedAtBadLength | StoppedByHandler | NotRead | Overflow

  function Min(a: nat, b: nat): nat {
    if a <= b then a else b
  }

  /** How many of `available` bytes a run of reads takes. */
  function Taken(sizes: seq<ReadSize>, available: nat): (n: nat)
    ensures n <= available
  {
    if sizes == [] then 0
    else
      var n := Min(sizes[0], available);
      n + Taken(sizes[1..], available - n)
  }

  /** More to read leaves more unread. */
  lemma {:induction false} TakenLeaves(sizes: seq<ReadSize>, a: nat, b: nat)
    requires a <= b
    ensures a - Taken(sizes, a) <= b - Taken(sizes, b)
  {
    if sizes != [] { TakenLeaves(sizes[1..], a - Min(sizes[0], a), b - Min(sizes[0], b)); }
  }

  lemma NothingTaken(sizes: seq<ReadSize>)
    ensures Taken(sizes, 0) == 0
  {
  }

  lemma OneRead(sizes: seq<ReadSize>, i: nat, available: nat)
    requires i < |sizes|
    ensures var n := Min(sizes[i], available);
            Taken(sizes[i..], available) == n + Taken(sizes[i + 1..], available - n)
    ensures Sum(sizes[i..]) == sizes[i] + Sum(sizes[i + 1..])
  {
    assert sizes[i..][1..] == sizes[i + 1..];
  }

  /** `taken` bytes have moved from pipe to buffer. */
  ghost predicate ReadsOff(taken: nat, pipe: seq<byte>, pipe': seq<byte>, buf: seq<byte>, buf': seq<byte>) {
    taken <= |pipe| && pipe' == pipe[taken..] && |buf'| == |buf| + taken
  }

  lemma SliceTaken(s: seq<byte>, taken: nat, n: nat)
    requires taken + n <= |s|
    ensures s[taken..][n..] == s[taken + n..]
  {
  }

  /** No reads that end in EOF or an error, no closing and no refusal, at any depth. */
  ghost predicate Quiet(call: PumpCall)
    decreases call
  {
    call.end.WouldBlock? && forall h :: h in call.handlers ==> QuietHandler(h)
  }

  ghost predicate QuietHandler(h: Handler)
    decreases h
  {
    h.accepts && forall a :: a in h.actions ==> QuietAction(a)
  }

  ghost predicate QuietAction(a: Action)
    decreases a
  {
    match a
    case Reenter(call) => Quiet(call)
    case CloseChannel => false
  }

  function Sum(sizes: seq<ReadSize>): nat {
    if sizes == [] then 0 else sizes[0] + Sum(sizes[1..])
  }

  /** The most bytes a call can read, calls made by its handlers included. */
  function Budget(call: PumpCall): nat
    decreases call
  {
    Sum(call.sizes) + HandlersBudget(call.handlers)
  }

  function HandlersBudget(hs: seq<Handler>): nat
    decreases hs
  {
    if hs == [] then 0 else ActionsBudget(hs[0].actions) + HandlersBudget(hs[1..])
  }

  function ActionsBudget(actions: seq<Action>): nat
    decreases actions
  {
    if actions == [] then 0 else ActionBudget(actions[0]) + ActionsBudget(actions[1..])
  }

  function ActionBudget(a: Action): nat
    decreases a
  {
    match a
    case Reenter(call) => Budget(call)
    case CloseChannel => 0
  }

  /** How many of n bytes a sequence of pump calls leaves unread at most. */
  function Left(calls: seq<PumpCall>, n: nat): nat {
    if calls == [] then n else Left(calls[1..], n - Taken(calls[0].sizes, n))
  }

  /** The same for the actions of a handler, as long as the channel stays open. */
  function LeftByActions(actions: seq<Action>, n: nat): nat {
    if actions == [] then n else LeftByActions(actions[1..], LeftByAction(actions[0], n))
  }

  function LeftByAction(a: Action, n: nat): (left: nat)
    ensures left <= n
  {
    match a
    case Reenter(call) => n - Taken(call.sizes, n)
    case CloseChannel => n
  }

  lemma ActionLeaves(a: Action, m: nat, n: nat)
    requires m <= n
    ensures LeftByAction(a, m) <= LeftByAction(a, n)
  {
    if a.Reenter? { TakenLeaves(a.call.sizes, m, n); }
  }

  /**
   A quiet call that cannot overflow the buffer: because the whole stream of n bytes fits, or
   because the call reads little enough beside an incomplete frame.
   */
  ghost predicate CalmCall(call: PumpCall, n: nat) {
    Quiet(call) && (n <= RECV_BUFFER_MAX_LEN || Budget(call) + 4 + MESSAGE_MAX_LEN <= RECV_BUFFER_MAX_LEN)
  }

  ghost predicate AllQuiet(calls: seq<PumpCall>) {
    forall c :: c in calls ==> Quiet(c)
  }

  ghost predicate Calm(calls: seq<PumpCall>, n: nat) {
    forall c :: c in calls ==> CalmCall(c, n)
  }

  lemma IncompleteIsShort(s: seq<byte>)
    ensures Peek(s).Incomplete? ==> |s| < 4 + MESSAGE_MAX_LEN
  {
  }

  /** The handler of the k-th message; beyond the list it does nothing. */
  function HandlerAt(call: PumpCall, k: nat): Handler {
    if k < |call.handlers| then call.handlers[k] else Handler([], true)
  }

  lemma HandlerOf(call: PumpCall, k: nat)
    requires k <= |call.handlers|
    ensures Quiet(call) ==> QuietHandler(HandlerAt(call, k))
    ensures HandlersBudget(call.handlers[k..]) ==
            ActionsBudget(HandlerAt(call, k).actions)
            + HandlersBudget(call.handlers[if k < |call.handlers| then k + 1 else k..])
  {
    if k < |call.handlers| { assert call.handlers[k..][1..] == call.handlers[k + 1..]; }
  }

  lemma ActionOf(handler: Handler, i: nat, n: nat)
    requires i < |handler.actions|
    ensures var a := handler.actions[i];
            && (QuietHandler(handler) ==> QuietAction(a))
            && ActionsBudget(handler.actions[i..]) == ActionBudget(a) + ActionsBudget(handler.actions[i + 1..])
            && LeftByActions(handler.actions[i..], n) == LeftByActions(handler.actions[i + 1..], LeftByAction(a, n))
  {
    assert handler.actions[i..][1..] == handler.actions[i + 1..];
  }

  /** The receiving half of a channel in pumped mode. */
  class Channel {
    var pipe: seq<byte>                 // sent by the worker, not yet read
    var recvBuf: seq<byte>
    var dispatchOffset: nat
    var processing: bool
    var closed: bool
    var overflowed: bool                // closed because the buffer grew too big, at whatever depth
    var dispatched: seq<seq<byte>>      // arguments of processMessage, in call order
    ghost var wire: seq<byte>           // everything the worker ever sent

    /** No byte is lost or repeated: what was sent is what was dispatched, is buffered or waits in the pipe. */
    ghost predicate Valid()
      reads this
    {
      && dispatchOffset <= |recvBuf|
      && (!processing ==> dispatchOffset == 0)
      && Splits(wire, dispatched, recvBuf[dispatchOffset..] + pipe)
    }

    /** The bytes taken from the pipe so far. */
    ghost function Consumed(): seq<byte>
      requires Valid()
      reads this
    {
      Encode(dispatched) + recvBuf[dispatchOffset..]
    }

    /** Unless the buffer has overflowed, the channel was closed for a bad length if at all. */
    ghost predicate Orderly()
      requires Valid()
      reads this
    {
      closed && !overflowed ==> Peek(recvBuf[dispatchOffset..]).BadLength?
    }

    /** Between outermost calls, without overflow: everything complete is dispatched, and the channel closed only at a bad length. */
    ghost predicate Settled()
      reads this
    {
      && Valid() && !processing
      && (!overflowed ==>
            && dispatched == Frames(Consumed()) && recvBuf == Rest(Consumed())
            && Peek(recvBuf) == if closed then BadLength else Incomplete)
    }

    /** The buffer cannot overflow while at most n more bytes are read. */
    ghost predicate HasRoom(n: nat)
      reads this
    {
      |recvBuf| + |pipe| <= RECV_BUFFER_MAX_LEN || |recvBuf| + n <= RECV_BUFFER_MAX_LEN
    }

    constructor ()
      ensures Settled() && !closed && !overflowed && wire == [] && pipe == [] && recvBuf == [] && dispatched == []
    {
      pipe, recvBuf, dispatched, wire := [], [], [], [];
      dispatchOffset, processing, closed, overflowed := 0, false, false, false;
    }

    /** The worker writes `bytes`. */
    method Arrive(bytes: seq<byte>)
      requires Valid()
      modifies this`pipe, this`wire
      ensures Valid() && wire == old(wire) + bytes && pipe == old(pipe) + bytes && (old(Settled()) ==> Settled())
    {
      ghost var held := recvBuf[dispatchOffset..];
      ConcatAssoc(held, pipe, bytes);
      ConcatAssoc(Encode(dispatched), held + pipe, bytes);
      pipe, wire := pipe + bytes, wire + bytes;
    }

    /** One `read`. */
    method Absorb(n: nat)
      requires Valid() && n <= |pipe|
      modifies this`pipe, this`recvBuf
      ensures Valid()
      ensures recvBuf == old(recvBuf) + old(pipe)[..n] && pipe == old(pipe)[n..]
      ensures old(recvBuf) <= recvBuf && |recvBuf| == |old(recvBuf)| + n
    {
      var chunk := pipe[..n];
      assert pipe == chunk + pipe[n..];
      assert (recvBuf + chunk)[dispatchOffset..] == recvBuf[dispatchOffset..] + chunk;
      ConcatAssoc(recvBuf[dispatchOffset..], chunk, pipe[n..]);
      recvBuf, pipe := recvBuf + chunk, pipe[n..];
    }

    /** Reads until the pipe is empty, the reads are used up or the buffer is too big. */
    method ReadSizes(sizes: seq<ReadSize>) returns (overflow: bool, ghost taken: nat)
      requires Valid()
      modifies this`pipe, this`recvBuf
      ensures Valid() && old(recvBuf) <= recvBuf
      ensures overflow ==> |recvBuf| > RECV_BUFFER_MAX_LEN
      ensures ReadsOff(taken, old(pipe), pipe, old(recvBuf), recvBuf) && taken <= Sum(sizes)
      ensures !overflow ==> taken == Taken(sizes, |old(pipe)|)
      ensures !overflow && |old(recvBuf)| <= RECV_BUFFER_MAX_LEN ==> |recvBuf| <= RECV_BUFFER_MAX_LEN
    {
      overflow, taken := false, 0;
      for i := 0 to |sizes|
        invariant Valid() && old(recvBuf) <= recvBuf
        invariant ReadsOff(taken, old(pipe), pipe, old(recvBuf), recvBuf)
        invariant Taken(sizes, |old(pipe)|) == taken + Taken(sizes[i..], |pipe|)
        invariant taken + Sum(sizes[i..]) <= Sum(sizes)
        invariant |old(recvBuf)| <= RECV_BUFFER_MAX_LEN ==> |recvBuf| <= RECV_BUFFER_MAX_LEN
      {
        var n := Min(sizes[i], |pipe|);
        OneRead(sizes, i, |pipe|);
        if n == 0 {
          NothingTaken(sizes[i..]);
          return;
        }
        SliceTaken(old(pipe), taken, n);
        Absorb(n);
        taken := taken + n;
        if |recvBuf| > RECV_BUFFER_MAX_LEN { return true, taken; }
      }
    }

    method ReadAvailable(call: PumpCall) returns (result: PumpResult)
      requires Valid()
      modifies this`pipe, this`recvBuf, this`closed, this`overflowed
      ensures Valid()
      ensures old(recvBuf) <= recvBuf
      ensures old(closed) ==> closed
      ensures result.Drained? || result.Overflow? || result.NotRead?
      ensures result.Drained? ==> call.end.WouldBlock? && closed == old(closed)
      ensures result.Overflow? ==> closed && |recvBuf| > RECV_BUFFER_MAX_LEN
      ensures !result.Overflow? && |old(recvBuf)| <= RECV_BUFFER_MAX_LEN ==> |recvBuf| <= RECV_BUFFER_MAX_LEN
      ensures overflowed == (old(overflowed) || result.Overflow?)
      ensures result.NotRead? ==> call.end.EofOrError?
      ensures !result.Overflow? ==> pipe == old(pipe)[Taken(call.sizes, |old(pipe)|)..]
      ensures |pipe| <= |old(pipe)| && |recvBuf| + |pipe| == |old(recvBuf)| + |old(pipe)|
      ensures |recvBuf| <= |old(recvBuf)| + Sum(call.sizes)
    {
      var overflow, _ := ReadSizes(call.sizes);
      if overflow {
        closed, overflowed := true, true;
        return Overflow;
      }
      result := if call.end.EofOrError? then NotRead else Drained;
    }

    /**
     The pump. Whatever the chunking and however deep handlers re-enter it, it loses and repeats
     no byte; and an outermost call that was able to read leaves the buffer at exactly the
     undispatched suffix, with every complete frame dispatched once and in stream order, unless
     one of its own handlers found a message malformed.
     */
    method ProcessAvailableData(call: PumpCall) returns (result: PumpResult)
      requires Valid()
      modifies this
      ensures Valid() && processing == old(processing)
      ensures wire == old(wire)
      ensures old(dispatched) <= dispatched
      ensures old(closed) ==> closed
      ensures old(processing) ==> old(recvBuf) <= recvBuf && old(dispatchOffset) <= dispatchOffset
      ensures old(closed) ==> result.NotRead? && dispatched == old(dispatched) && pipe == old(pipe) && recvBuf == old(recvBuf)
      ensures |pipe| <= |old(pipe)| && |recvBuf| + |pipe| <= |old(recvBuf)| + |old(pipe)|
      ensures old(processing) ==> |recvBuf| + |pipe| == |old(recvBuf)| + |old(pipe)|
      ensures |recvBuf| <= |old(recvBuf)| + Budget(call)
      ensures !old(closed) && !result.Overflow? ==> |pipe| <= |old(pipe)| - Taken(call.sizes, |old(pipe)|)
      ensures result.NotRead? ==> old(closed) || call.end.EofOrError?
      ensures result.NotRead? || result.Overflow? ==> dispatched == old(dispatched)
      ensures result.StoppedByHandler? || result.StoppedAtBadLength? || result.Overflow? ==> closed
      ensures result.StoppedByHandler? ==> exists h :: h in call.handlers && !h.accepts
      ensures !old(processing) && (result.Drained? || result.StoppedAtBadLength?) ==>
                && dispatched == Frames(Consumed())
                && recvBuf == Rest(Consumed())
                && Peek(recvBuf) == if result.Drained? then Incomplete else BadLength
      ensures old(overflowed) || result.Overflow? ==> overflowed
      ensures overflowed && !old(overflowed) ==> closed && !old(closed)
      ensures !old(overflowed) && old(HasRoom(Budget(call))) ==> !overflowed
      ensures Quiet(call) && old(Orderly()) ==> Orderly() && !result.StoppedByHandler?
      decreases call
    {
      if closed { return NotRead; }
      result := ReadAvailable(call);
      if !result.Drained? { return; }

      var outermost := !processing;
      if outermost {
        processing, dispatchOffset := true, 0;
      }
      result := DispatchBuffered(call);
      if outermost {
        recvBuf := recvBuf[dispatchOffset..];
        dispatchOffset, processing := 0, false;
        if !result.StoppedByHandler? {
          DecompositionIsUnique(dispatched, recvBuf);
        }
      }
    }

    /** An outermost call: a settled channel stays settled when the call is quiet, and does not overflow when it is calm. */
    method PumpSettled(call: PumpCall, ghost total: nat)
      requires Valid() && !processing && |recvBuf| + |pipe| <= total
      modifies this
      ensures Valid() && !processing && wire == old(wire) && |recvBuf| + |pipe| <= total
      ensures old(overflowed) ==> overflowed
      ensures old(Settled()) && Quiet(call) ==> Settled()
      ensures old(Settled()) && CalmCall(call, total) && !old(overflowed) ==> !overflowed
      ensures !closed ==> !old(closed) && |pipe| <= |old(pipe)| - Taken(call.sizes, |old(pipe)|)
    {
      assert recvBuf[0..] == recvBuf;
      IncompleteIsShort(recvBuf);
      var _ := ProcessAvailableData(call);
      assert recvBuf[0..] == recvBuf;
    }

    /** Outermost calls one after the other. */
    method PumpAll(calls: seq<PumpCall>, ghost total: nat)
      requires Valid() && !processing && |recvBuf| + |pipe| <= total
      modifies this
      ensures Valid() && !processing && wire == old(wire)
      ensures old(Settled()) && AllQuiet(calls) ==> Settled()
      ensures old(Settled()) && Calm(calls, total) && !old(overflowed) ==> !overflowed
      ensures !closed ==> |pipe| <= Left(calls, |old(pipe)|)
    {
      ghost var quiet, calm := Settled() && AllQuiet(calls), Settled() && Calm(calls, total) && !overflowed;
      ghost var n: nat := |pipe|;
      for i := 0 to |calls|
        invariant Valid() && !processing && wire == old(wire) && |recvBuf| + |pipe| <= total
        invariant quiet || calm ==> Settled()
        invariant calm ==> !overflowed
        invariant !closed ==> |pipe| <= n
        invariant Left(calls, |old(pipe)|) == Left(calls[i..], n)
      {
        assert calls[i..][1..] == calls[i + 1..];
        assert (calm ==> CalmCall(calls[i], total)) && (quiet ==> Quiet(calls[i]));
        if |pipe| <= n { TakenLeaves(calls[i].sizes, |pipe|, n); }
        n := n - Taken(calls[i].sizes, n);
        PumpSettled(calls[i], total);
      }
    }

    method DispatchBuffered(call: PumpCall) returns (result: PumpResult)
      requires Valid() && processing
      modifies this
      ensures Valid() && processing
      ensures wire == old(wire)
      ensures old(dispatched) <= dispatched
      ensures old(closed) ==> closed
      ensures old(recvBuf) <= recvBuf && old(dispatchOffset) <= dispatchOffset
      ensures match result
              case Drained => Peek(recvBuf[dispatchOffset..]).Incomplete?
              case StoppedAtBadLength => closed && Peek(recvBuf[dispatchOffset..]).BadLength?
              case StoppedByHandler => closed && exists h :: h in call.handlers && !h.accepts
              case _ => false
      ensures |pipe| <= |old(pipe)| && |recvBuf| + |pipe| == |old(recvBuf)| + |old(pipe)|
      ensures |recvBuf| <= |old(recvBuf)| + HandlersBudget(call.handlers)
      ensures old(overflowed) ==> overflowed
      ensures overflowed && !old(overflowed) ==> closed
      ensures !old(overflowed) && old(HasRoom(HandlersBudget(call.handlers))) ==> !overflowed
      ensures Quiet(call) && old(Orderly()) ==> Orderly() && !result.StoppedByHandler?
      decreases call, 1
    {
      var k, more := 0, true;
      ghost var calm, roomy := Quiet(call) && Orderly(), !overflowed && HasRoom(HandlersBudget(call.handlers));
      result := Drained;
      while more
        invariant Valid() && processing && k <= |call.handlers|
        invariant wire == old(wire)
        invariant old(dispatched) <= dispatched
        invariant old(closed) ==> closed
        invariant old(recvBuf) <= recvBuf && old(dispatchOffset) <= dispatchOffset
        invariant |recvBuf| + |pipe| == |old(recvBuf)| + |old(pipe)|
        invariant |recvBuf| + HandlersBudget(call.handlers[k..]) <= |old(recvBuf)| + HandlersBudget(call.handlers)
        invariant old(overflowed) ==> overflowed
        invariant overflowed && !old(overflowed) ==> closed
        invariant roomy ==> !overflowed
        invariant calm ==> Orderly() && !result.StoppedByHandler?
        invariant !more ==> match result
                            case Drained => Peek(recvBuf[dispatchOffset..]).Incomplete?
                            case StoppedAtBadLength => closed && Peek(recvBuf[dispatchOffset..]).BadLength?
                            case StoppedByHandler => closed && exists h :: h in call.handlers && !h.accepts
                            case _ => false
        decreases more, |call.handlers| - k, |recvBuf| - dispatchOffset
      {
        HandlerOf(call, k);
        result, more := DispatchNext(call, k);
        if k < |call.handlers| { k := k + 1; }
      }
    }

    /** One message and its handler, unless the buffer holds none; a refused message closes the channel. */
    method DispatchNext(call: PumpCall, k: nat) returns (result: PumpResult, more: bool)
      requires Valid() && processing
      modifies this
      ensures Valid() && processing
      ensures wire == old(wire)
      ensures old(dispatched) <= dispatched
      ensures old(closed) ==> closed
      ensures old(recvBuf) <= recvBuf && old(dispatchOffset) <= dispatchOffset
      ensures |recvBuf| + |pipe| == |old(recvBuf)| + |old(pipe)|
      ensures |recvBuf| <= |old(recvBuf)| + ActionsBudget(HandlerAt(call, k).actions)
      ensures more ==> result.Drained? && old(dispatchOffset) < dispatchOffset && HandlerAt(call, k).accepts
      ensures !more ==> match result
                        case Drained => Peek(recvBuf[dispatchOffset..]).Incomplete?
                        case StoppedAtBadLength => closed && Peek(recvBuf[dispatchOffset..]).BadLength?
                        case StoppedByHandler => closed && k < |call.handlers| && !call.handlers[k].accepts
                        case _ => false
      ensures old(overflowed) ==> overflowed
      ensures overflowed && !old(overflowed) ==> closed
      ensures !old(overflowed) && old(HasRoom(ActionsBudget(HandlerAt(call, k).actions))) ==> !overflowed
      ensures QuietHandler(HandlerAt(call, k)) && old(Orderly()) ==> Orderly() && !result.StoppedByHandler?
      decreases call, 0
    {
      result, more := Drained, false;
      var head := FrontHead();
      if head.BadLength? {
        closed := true;
        return StoppedAtBadLength, false;
      }
      if head.Incomplete? { return; }
      DispatchFront(head.length);
      if k < |call.handlers| {
        RunHandler(call.handlers[k]);
        if !call.handlers[k].accepts {
          closed := true;
          return StoppedByHandler, false;
        }
      }
      more := true;
    }

    /** What the buffer holds at the dispatch offset. */
    method FrontHead() returns (head: Head)
      requires Valid()
      ensures head == Peek(recvBuf[dispatchOffset..])
    {
      if dispatchOffset + 4 > |recvBuf| { return Incomplete; }
      var msgLen := FromLe32(recvBuf[dispatchOffset..dispatchOffset + 4]);
      assert recvBuf[dispatchOffset..][..4] == recvBuf[dispatchOffset..dispatchOffset + 4];
      if msgLen == 0 || msgLen > MESSAGE_MAX_LEN { return BadLength; }
      if dispatchOffset + 4 + msgLen > |recvBuf| { return Incomplete; }
      head := Complete(msgLen);
    }

    /** Hands the frame at the dispatch offset to its handler; the offset moves on first. */
    method DispatchFront(msgLen: nat)
      requires Valid() && processing
      requires Peek(recvBuf[dispatchOffset..]) == Complete(msgLen)
      modifies this`dispatchOffset, this`dispatched
      ensures Valid()
      ensures dispatchOffset == old(dispatchOffset) + 4 + msgLen
      ensures dispatched == old(dispatched) + [recvBuf[dispatchOffset - msgLen..dispatchOffset]]
    {
      ghost var front := recvBuf[dispatchOffset..];
      var message := recvBuf[dispatchOffset + 4..dispatchOffset + 4 + msgLen];
      ghost var rest := AdvanceFront(wire, dispatched, front, message, pipe);
      dispatchOffset := dispatchOffset + 4 + msgLen;
      dispatched := dispatched + [message];
      assert recvBuf[dispatchOffset..] == rest;
    }

    method RunHandler(handler: Handler)
      requires Valid() && processing
      modifies this
      ensures Valid() && processing
      ensures wire == old(wire)
      ensures old(dispatched) <= dispatched
      ensures old(closed) ==> closed
      ensures old(recvBuf) <= recvBuf && old(dispatchOffset) <= dispatchOffset
      ensures |pipe| <= |old(pipe)| && |recvBuf| + |pipe| == |old(recvBuf)| + |old(pipe)|
      ensures |recvBuf| <= |old(recvBuf)| + ActionsBudget(handler.actions)
      ensures CloseChannel in handler.actions ==> closed
      ensures !closed ==> |pipe| <= LeftByActions(handler.actions, |old(pipe)|)
      ensures old(overflowed) ==> overflowed
      ensures overflowed && !old(overflowed) ==> closed
      ensures !old(overflowed) && old(HasRoom(ActionsBudget(handler.actions))) ==> !overflowed
      ensures QuietHandler(handler) && old(Orderly()) ==> Orderly()
      decreases handler
    {
      ghost var n: nat := |pipe|;
      ghost var calm, roomy := QuietHandler(handler) && Orderly(), !overflowed && HasRoom(ActionsBudget(handler.actions));
      for i := 0 to |handler.actions|
        invariant Valid() && processing
        invariant !closed ==> |pipe| <= n
        invariant LeftByActions(handler.actions, |old(pipe)|) == LeftByActions(handler.actions[i..], n)
        invariant wire == old(wire)
        invariant old(dispatched) <= dispatched
        invariant old(closed) ==> closed
        invariant old(recvBuf) <= recvBuf && old(dispatchOffset) <= dispatchOffset
        invariant |pipe| <= |old(pipe)| && |recvBuf| + |pipe| == |old(recvBuf)| + |old(pipe)|
        invariant |recvBuf| + ActionsBudget(handler.actions[i..]) <= |old(recvBuf)| + ActionsBudget(handler.actions)
        invariant CloseChannel in handler.actions[..i] ==> closed
        invariant old(overflowed) ==> overflowed
        invariant overflowed && !old(overflowed) ==> closed
        invariant roomy ==> !overflowed
        invariant calm ==> Orderly()
      {
        ActionOf(handler, i, n);
        if |pipe| <= n { ActionLeaves(handler.actions[i], |pipe|, n); }
        n := LeftByAction(handler.actions[i], n);
        RunAction(handler.actions[i]);
      }
    }

    method RunAction(action: Action)
      requires Valid() && processing
      modifies this
      ensures Valid() && processing
      ensures wire == old(wire)
      ensures old(dispatched) <= dispatched
      ensures old(closed) || action.CloseChannel? ==> closed
      ensures old(recvBuf) <= recvBuf && old(dispatchOffset) <= dispatchOffset
      ensures |recvBuf| + |pipe| == |old(recvBuf)| + |old(pipe)|
      ensures |recvBuf| <= |old(recvBuf)| + ActionBudget(action)
      ensures !closed ==> |pipe| <= LeftByAction(action, |old(pipe)|)
      ensures old(overflowed) ==> overflowed
      ensures overflowed && !old(overflowed) ==> closed
      ensures !old(overflowed) && old(HasRoom(ActionBudget(action))) ==> !overflowed
      ensures QuietAction(action) && old(Orderly()) ==> Orderly()
      decreases action
    {
      match action
      case Reenter(call) => var _ := ProcessAvailableData(call);
      case CloseChannel => closed := true;
    }
  }

  // ---------------------------------------------------------------------------
  // The reader that runs on its own thread
  // ---------------------------------------------------------------------------

  /** Parses one buffer from its start; `rejected` and `bad` tell why it stopped early. */
  method DrainBuffer(buf: seq<byte>, accepts: nat -> bool, first: nat)
    returns (messages: seq<seq<byte>>, offset: nat, rejected: bool, bad: bool, ghost rest: seq<byte>)
    ensures Splits(buf, messages, rest)
    ensures rejected ==> exists i :: !accepts(i)
    ensures !rejected ==> !Peek(rest).Complete? && bad == Peek(rest).BadLength?
    ensures offset <= |buf| && buf[offset..] == if bad || rejected then [] else rest
  {
    messages, offset, rejected, bad := [], 0, false, false;
    rest := buf;
    while offset + 4 <= |buf|
      invariant offset <= |buf| && rest == buf[offset..] && !rejected && !bad
      invariant Splits(buf, messages, rest)
    {
      var msgLen := FromLe32(buf[offset..offset + 4]);
      assert rest[..4] == buf[offset..offset + 4];
      if msgLen == 0 || msgLen > MESSAGE_MAX_LEN {
        offset, bad := |buf|, true;
        return;
      }
      if offset + 4 + msgLen > |buf| { return; }
      var message := buf[offset + 4..offset + 4 + msgLen];
      rest := AdvanceRest(buf, messages, rest, message);
      messages := messages + [message];
      if !accepts(first + |messages| - 1) {
        offset, rejected := |buf|, true;
        return;
      }
      offset := offset + 4 + msgLen;
    }
  }

  /** Moves the split point of a stream over the frame in front of it. */
  lemma AdvanceFront(s: seq<byte>, ms: seq<seq<byte>>, front: seq<byte>, m: seq<byte>, more: seq<byte>) returns (rest: seq<byte>)
    requires Splits(s, ms, front + more)
    requires Peek(front) == Complete(|m|) && m == front[4..4 + |m|]
    ensures rest == front[4 + |m|..]
    ensures Splits(s, ms + [m], rest + more)
  {
    rest := front[4 + |m|..];
    FrontFrame(front, |m|);
    EncodeSnoc(ms, m);
    ConcatAssoc(EncodeFrame(m), rest, more);
    ConcatAssoc(Encode(ms), EncodeFrame(m), rest + more);
  }

  lemma AdvanceRest(s: seq<byte>, ms: seq<seq<byte>>, front: seq<byte>, m: seq<byte>) returns (rest: seq<byte>)
    requires Splits(s, ms, front)
    requires Peek(front) == Complete(|m|) && m == front[4..4 + |m|]
    ensures rest == front[4 + |m|..]
    ensures Splits(s, ms + [m], rest)
  {
    assert front + [] == front;
    rest := AdvanceFront(s, ms, front, m, []);
    assert rest + [] == rest;
  }

  /** One pass of the threaded reader: append a chunk, check the backlog, parse. */
  method TakeChunk(ghost seen: seq<byte>, done: seq<seq<byte>>, held: seq<byte>, chunk: seq<byte>, accepts: nat -> bool)
    returns (dispatched: seq<seq<byte>>, residue: seq<byte>, closed: bool, guardFired: bool, ghost rest: seq<byte>)
    requires Splits(seen, done, held)
    requires |held| < 4 + MESSAGE_MAX_LEN && |chunk| <= READ_CHUNK_SIZE
    ensures !guardFired && |residue| < 4 + MESSAGE_MAX_LEN
    ensures Splits(seen + chunk, dispatched, rest)
    ensures !closed ==> residue == rest && Peek(rest).Incomplete?
    ensures closed ==> Peek(rest).BadLength? || exists i :: !accepts(i)
  {
    residue := held + chunk;
    // The source closes the channel at once when this guard fires; it never does.
    guardFired := |residue| > RECV_BUFFER_MAX_LEN;
    var messages, offset, rejected, bad;
    messages, offset, rejected, bad, rest := DrainBuffer(residue, accepts, |done|);
    EncodeAppend(done, messages);
    Reassociate(seen, Encode(done), held, chunk, Encode(messages), rest);
    dispatched := done + messages;
    residue := residue[offset..];
    closed := guardFired || rejected || bad;
  }

  /**
   The threaded reader. `stops(i)` says that someone has closed the channel before the i-th read;
   `accepts(i)` is the verdict of the handler of the i-th message. Its backlog guard never fires,
   and what it dispatches is what the bytes it has read mean.
   */
  method ReadLoop(stream: seq<byte>, sizes: seq<ReadSize>, stops: nat -> bool, accepts: nat -> bool)
    returns (dispatched: seq<seq<byte>>, consumed: nat, residue: seq<byte>, closed: bool, guardFired: bool)
    ensures consumed <= |stream|
    ensures !guardFired && |residue| < 4 + MESSAGE_MAX_LEN
    ensures dispatched <= Frames(stream[..consumed])
    ensures (forall i :: accepts(i)) ==> dispatched == Frames(stream[..consumed])
    ensures !closed ==> residue == Rest(stream[..consumed]) && consumed == Taken(sizes, |stream|)
    ensures closed ==> (exists i :: stops(i)) || (exists i :: !accepts(i)) || Peek(Rest(stream[..consumed])).BadLength?
  {
    dispatched, consumed, residue, closed, guardFired := [], 0, [], false, false;
    for i := 0 to |sizes|
      invariant consumed <= |stream| && !closed && !guardFired
      invariant Splits(stream[..consumed], dispatched, residue)
      invariant Peek(residue).Incomplete? && |residue| < 4 + MESSAGE_MAX_LEN
      invariant Taken(sizes, |stream|) == consumed + Taken(sizes[i..], |stream| - consumed)
    {
      if stops(i) {
        closed := true;
        break;
      }
      OneRead(sizes, i, |stream| - consumed);
      var n := Min(sizes[i], |stream| - consumed);
      if n == 0 { continue; }
      var chunk := stream[consumed..consumed + n];
      assert stream[..consumed + n] == stream[..consumed] + chunk;
      ghost var rest;
      dispatched, residue, closed, guardFired, rest := TakeChunk(stream[..consumed], dispatched, residue, chunk, accepts);
      consumed := consumed + n;
      if closed {
        WhatSplitMeans(stream[..consumed], dispatched, rest);
        return;
      }
    }
    WhatSplitMeans(stream[..consumed], dispatched, residue);
  }

  /** After a bad length nothing more is recognised. */
  lemma BadLengthIsFinal(s: seq<byte>, t: seq<byte>)
    requires Peek(Rest(s)).BadLength?
    ensures Frames(s + t) == Frames(s)
  {
    FramesOfExtension(s, t);
    assert (Rest(s) + t)[..4] == Rest(s)[..4];
    assert Frames(Rest(s) + t) == [];
  }

  /** The pumped reader over a whole stream. */
  method PumpStream(stream: seq<byte>, calls: seq<PumpCall>) returns (pumped: seq<seq<byte>>, overflowed: bool)
    ensures pumped <= Frames(stream)
    ensures AllQuiet(calls) && Left(calls, |stream|) == 0 && !overflowed ==> pumped == Frames(stream)
    ensures Calm(calls, |stream|) ==> !overflowed
  {
    var channel := new Channel();
    channel.Arrive(stream);
    assert channel.wire == stream && channel.pipe == stream;
    channel.PumpAll(calls, |stream|);
    pumped, overflowed := channel.dispatched, channel.overflowed;
    WhatSettledMeans(channel);
  }

  lemma WhatSettledMeans(channel: Channel)
    requires channel.Valid() && !channel.processing
    ensures channel.dispatched <= Frames(channel.wire)
    ensures channel.Settled() && !channel.overflowed && (channel.closed || channel.pipe == []) ==>
              channel.dispatched == Frames(channel.wire)
  {
    var held, pipe := channel.recvBuf, channel.pipe;
    assert held[0..] == held;
    WhatSplitMeans(channel.wire, channel.dispatched, held + pipe);
    ConcatAssoc(Encode(channel.dispatched), held, pipe);
    if channel.Settled() && !channel.overflowed {
      if channel.closed {
        BadLengthIsFinal(channel.Consumed(), pipe);
      } else if pipe == [] {
        assert channel.wire == channel.Consumed();
      }
    }
  }

  /** The threaded reader over a whole stream. */
  method ReadStream(stream: seq<byte>, sizes: seq<ReadSize>) returns (threaded: seq<seq<byte>>)
    ensures threaded <= Frames(stream)
    ensures Taken(sizes, |stream|) == |stream| ==> threaded == Frames(stream)
  {
    var never, always := (i: nat) => false, (i: nat) => true;
    var messages, read, _, closed, _ := ReadLoop(stream, sizes, never, always);
    assert forall i :: always(i) && !never(i);
    assert stream == stream[..read] + stream[read..];
    FramesOfExtension(stream[..read], stream[read..]);
    if closed {
      BadLengthIsFinal(stream[..read], stream[read..]);
    } else if read == |stream| {
      assert stream[..read] == stream;
    }
    threaded := messages;
  }

  /**
   Both readers, each with its own chunking and the pumped one re-entered at will, on one stream:
   each dispatches a prefix of the frames, and once its reads cover the stream all of them, a
   stream with a bad length anywhere included. So they agree, unless the pumped one overflows,
   which no calm calls do.
   */
  method BothReaders(stream: seq<byte>, calls: seq<PumpCall>, sizes: seq<ReadSize>)
    returns (pumped: seq<seq<byte>>, threaded: seq<seq<byte>>, overflowed: bool)
    ensures pumped <= Frames(stream) && threaded <= Frames(stream)
    ensures AllQuiet(calls) && Left(calls, |stream|) == 0 && !overflowed ==> pumped == Frames(stream)
    ensures Calm(calls, |stream|) ==> !overflowed
    ensures Taken(sizes, |stream|) == |stream| ==> threaded == Frames(stream)
    ensures AllQuiet(calls) && Left(calls, |stream|) == 0 && !overflowed && Taken(sizes, |stream|) == |stream| ==>
              pumped == threaded
  {
    pumped, overflowed := PumpStream(stream, calls);
    threaded := ReadStream(stream, sizes);
  }

  lemma WhatSplitMeans(s: seq<byte>, ms: seq<seq<byte>>, rest: seq<byte>)
    requires Splits(s, ms, rest)
    ensures ms <= Frames(s)
    ensures !Peek(rest).Complete? ==> ms == Frames(s) && rest == Rest(s)
  {
    PrefixOfFrames(ms, rest);
    if !Peek(rest).Complete? { DecompositionIsUnique(ms, rest); }
  }

  lemma PrefixOfFrames(ms: seq<seq<byte>>, rest: seq<byte>)
    requires AllSized(ms)
    ensures ms <= Frames(Encode(ms) + rest)
  {
    Decomposition(rest);
    EncodeAppend(ms, Frames(rest));
    ConcatAssoc(Encode(ms), Encode(Frames(rest)), Rest(rest));
    DecompositionIsUnique(ms + Frames(rest), Rest(rest));
  }

  lemma {:induction false} FrontFrame(s: seq<byte>, n: nat)
    requires 4 + n <= |s| && n == FromLe32(s[..4]) && 0 < n <= MESSAGE_MAX_LEN
    ensures Sized(s[4..4 + n])
    ensures s == EncodeFrame(s[4..4 + n]) + s[4 + n..]
  {
    Le32Inverse(s[..4]);
  }
}
