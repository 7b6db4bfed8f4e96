/**
 * The browser-side `StreamPlayer`: synthesized audio chunks are queued as they
 * arrive and handed to a `MediaSource` buffer one at a time, whenever that buffer
 * exists and is not busy with the previous one. What the browser does is passed
 * in: whether the MIME type is supported when the source opens, and whether each
 * `appendBuffer` call is accepted or throws.
 */
module Player {
  import opened Protocol

  /** The chunks of `taken` whose `appendBuffer` call did not throw, in order. */
  function Delivered(taken: seq<Bytes>, accepted: seq<bool>): (r: seq<Bytes>)
    requires |taken| == |accepted|
    ensures |r| <= |taken|
    decreases |taken|
  {
    if taken == [] then []
    else
      var n := |taken| - 1;
      Delivered(taken[..n], accepted[..n]) + (if accepted[n] then [taken[n]] else [])
  }

  lemma DeliveredSnoc(taken: seq<Bytes>, accepted: seq<bool>, c: Bytes, ok: bool)
    requires |taken| == |accepted|
    ensures Delivered(taken + [c], accepted + [ok]) == Delivered(taken, accepted) + (if ok then [c] else [])
  {
    assert (taken + [c])[..|taken|] == taken;
    assert (accepted + [ok])[..|accepted|] == accepted;
  }

  /** When no `appendBuffer` call throws, every chunk taken from the queue reaches
      the source buffer, in the order it was taken. */
  lemma {:induction false} DeliveredAll(taken: seq<Bytes>, accepted: seq<bool>)
    requires |taken| == |accepted|
    requires forall i :: 0 <= i < |accepted| ==> accepted[i]
    ensures Delivered(taken, accepted) == taken
    decreases |taken|
  {
    if taken != [] {
      var n := |taken| - 1;
      DeliveredAll(taken[..n], accepted[..n]);
      assert taken[..n] + [taken[n]] == taken;
    }
  }

  /** The positions whose `appendBuffer` call was accepted, in increasing order. */
  function AcceptedAt(accepted: seq<bool>): (idx: seq<nat>)
    ensures forall j :: 0 <= j < |idx| ==> idx[j] < |accepted| && accepted[idx[j]]
    ensures forall j, k :: 0 <= j < k < |idx| ==> idx[j] < idx[k]
    ensures forall i :: 0 <= i < |accepted| && accepted[i] ==> i in idx
    decreases |accepted|
  {
    if accepted == [] then []
    else
      var n := |accepted| - 1;
      AcceptedAt(accepted[..n]) + (if accepted[n] then [n] else [])
  }

  /** The source buffer receives the chunks at the accepted positions, in the
      order they were taken from the queue. */
  lemma {:induction false} DeliveredInOrder(taken: seq<Bytes>, accepted: seq<bool>)
    requires |taken| == |accepted|
    ensures |Delivered(taken, accepted)| == |AcceptedAt(accepted)|
    ensures forall j :: 0 <= j < |AcceptedAt(accepted)| ==>
      Delivered(taken, accepted)[j] == taken[AcceptedAt(accepted)[j]]
    decreases |taken|
  {
    if taken != [] {
      var n := |taken| - 1;
      DeliveredInOrder(taken[..n], accepted[..n]);
      var idx := AcceptedAt(accepted[..n]);
      var r := Delivered(taken[..n], accepted[..n]);
      var last := if accepted[n] then [taken[n]] else [];
      var lastIdx := if accepted[n] then [n] else [];
      assert Delivered(taken, accepted) == r + last;
      assert AcceptedAt(accepted) == idx + lastIdx;
      forall j | 0 <= j < |idx + lastIdx|
        ensures (r + last)[j] == taken[(idx + lastIdx)[j]]
      {
        if j < |idx| {
          assert r[j] == taken[..n][idx[j]];
        }
      }
    }
  }

  class StreamPlayer {
    /** The chunks waiting for the source buffer, oldest first. */
    var queue: seq<Bytes>
    /** `mediaSource` has fired `sourceopen` (its `readyState` is `open`). */
    var sourceOpen: bool
    /** `sourceBuffer` is no longer null. */
    var hasSourceBuffer: bool
    /** The source buffer's `updating` flag: an append is in progress. */
    var updating: bool
    /** `endOfStream` has succeeded. */
    var ended: bool
    /** Every chunk the source buffer accepted, in order. */
    var appended: seq<Bytes>
    /** Every chunk passed to `append`, every chunk shifted off the queue, and
        for each of those whether its `appendBuffer` call was accepted. */
    ghost var pushed: seq<Bytes>
    ghost var taken: seq<Bytes>
    ghost var accepted: seq<bool>

    /** The queue is first in, first out; the source buffer holds exactly the
        accepted chunks, in order; and nothing leaves the queue before a source
        buffer exists. */
    ghost predicate Valid()
      reads this
    {
      && pushed == taken + queue
      && |taken| == |accepted|
      && appended == Delivered(taken, accepted)
      && (!hasSourceBuffer ==> taken == [] && !updating)
      && (hasSourceBuffer ==> sourceOpen)
    }

    constructor ()
      ensures Valid()
      ensures queue == [] && appended == [] && pushed == []
      ensures !sourceOpen && !hasSourceBuffer && !updating && !ended
    {
      queue := [];
      sourceOpen := false;
      hasSourceBuffer := false;
      updating := false;
      ended := false;
      appended := [];
      pushed := [];
      taken := [];
      accepted := [];
    }

    /** `append(chunk)`: the chunk joins the back of the queue, then one drain. */
    method Append(chunk: Bytes, accept: bool)
      requires Valid()
      modifies this
      ensures Valid()
      ensures pushed == old(pushed) + [chunk]
      ensures var q := old(queue) + [chunk];
        if !hasSourceBuffer || old(updating) then
          && queue == q && appended == old(appended) && updating == old(updating)
        else
          && queue == q[1..]
          && appended == old(appended) + (if accept then [q[0]] else [])
          && updating == accept
      ensures sourceOpen == old(sourceOpen) && hasSourceBuffer == old(hasSourceBuffer) && ended == old(ended)
    {
      queue := queue + [chunk];
      pushed := pushed + [chunk];
      Drain(accept);
    }

    /** `drain()`: nothing while there is no source buffer or it is updating, or
        when the queue is empty; otherwise the oldest chunk leaves the queue and is
        appended, or dropped when `appendBuffer` throws. */
    method Drain(accept: bool)
      requires pushed == taken + queue && |taken| == |accepted| && appended == Delivered(taken, accepted)
      requires !hasSourceBuffer ==> taken == [] && !updating
      modifies this
      ensures pushed == taken + queue && |taken| == |accepted| && appended == Delivered(taken, accepted)
      ensures !hasSourceBuffer ==> taken == [] && !updating
      ensures if !hasSourceBuffer || old(updating) || old(queue) == [] then
          && queue == old(queue) && appended == old(appended) && updating == old(updating)
          && taken == old(taken)
        else
          && queue == old(queue)[1..]
          && taken == old(taken) + [old(queue)[0]]
          && accepted == old(accepted) + [accept]
          && appended == old(appended) + (if accept then [old(queue)[0]] else [])
          && updating == accept
      ensures pushed == old(pushed)
      ensures sourceOpen == old(sourceOpen) && hasSourceBuffer == old(hasSourceBuffer) && ended == old(ended)
    {
      if !hasSourceBuffer || updating {
        return;
      }
      if queue == [] {
        return;
      }
      var next := queue[0];
      queue := queue[1..];
      DeliveredSnoc(taken, accepted, next, accept);
      taken := taken + [next];
      accepted := accepted + [accept];
      if accept {
        appended := appended + [next];
        updating := true;
      }
    }

    /** `sourceopen`: with an unsupported MIME type nothing is set up and the queue
        stays where it is; otherwise a source buffer is created and drained once. */
    method OnSourceOpen(supported: bool, accept: bool)
      requires Valid()
      modifies this
      ensures Valid()
      ensures sourceOpen
      ensures !supported ==> queue == old(queue) && hasSourceBuffer == old(hasSourceBuffer) && appended == old(appended)
      ensures supported ==> hasSourceBuffer
      ensures supported ==>
        if old(queue) == [] then queue == [] && appended == old(appended) && !updating
        else
          && queue == old(queue)[1..]
          && appended == old(appended) + (if accept then [old(queue)[0]] else [])
          && updating == accept
      ensures pushed == old(pushed) && ended == old(ended)
    {
      sourceOpen := true;
      if !supported {
        return;
      }
      hasSourceBuffer := true;
      updating := false;
      Drain(accept);
    }

    /** `updateend` on the source buffer: the append finished; drain once more. */
    method OnUpdateEnd(accept: bool)
      requires Valid() && hasSourceBuffer
      modifies this
      ensures Valid()
      ensures if old(queue) == [] then queue == [] && appended == old(appended) && !updating
        else
          && queue == old(queue)[1..]
          && appended == old(appended) + (if accept then [old(queue)[0]] else [])
          && updating == accept
      ensures pushed == old(pushed) && ended == old(ended)
      ensures sourceOpen == old(sourceOpen) && hasSourceBuffer
    {
      updating := false;
      Drain(accept);
    }

    /** `end()`: `endOfStream` succeeds only while the source is open, not yet
        ended and not updating; when it throws the error is swallowed. */
    method End()
      requires Valid()
      modifies this
      ensures Valid()
      ensures ended == (old(ended) || (sourceOpen && !updating))
      ensures queue == old(queue) && appended == old(appended) && updating == old(updating)
      ensures sourceOpen == old(sourceOpen) && hasSourceBuffer == old(hasSourceBuffer) && pushed == old(pushed)
    {
      if sourceOpen && !ended && !updating {
        ended := true;
      }
    }
  }
}
