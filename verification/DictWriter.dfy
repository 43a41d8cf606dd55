/** The writer's queue: producers add under a lock, one worker drains it into the ring. */
module DictWriter {
  import opened MachineInts
  import opened RingSpec
  import opened SharedMemoryRing
  import LittleEndian

  /** One step of one of the threads that share a writer. `Worker` is one turn of the worker thread:
      its locked section if it holds no entry, with the answer of `is_ready`, and its unlocked section
      otherwise. A null data pointer is `None`. */
  datatype Action =
    | Add(data: Option<seq<uint8>>, sequence: uint32, timestamp: uint64)
    | Stop
    | Worker(ready: bool)

  /** The entries that the adds of a run put into the queue: those before the first stop that carry data. */
  function AcceptedBy(actions: seq<Action>): seq<DataEntry> {
    if actions == [] then
      []
    else
      var before := AcceptedBy(actions[..|actions| - 1]);
      var last := actions[|actions| - 1];
      if last.Add? && last.data.Some? && last.data.value != [] && Stop !in actions then
        before + [DataEntry(last.data.value, 0, last.sequence, last.timestamp)]
      else
        before
  }

  lemma AcceptedAfter(actions: seq<Action>, last: Action)
    ensures AcceptedBy(actions + [last])
         == if last.Add? && last.data.Some? && last.data.value != [] && Stop !in actions
            then AcceptedBy(actions) + [DataEntry(last.data.value, 0, last.sequence, last.timestamp)]
            else AcceptedBy(actions)
  {
    assert (actions + [last])[..|actions|] == actions;
  }

  /** The accepted entries are what the adds in front of the first stop carry, field by field, empty and null
      data aside: each once, in the order of the adds. */
  lemma {:induction false} AcceptedInOrder(actions: seq<Action>) returns (at: seq<nat>)
    ensures |at| == |AcceptedBy(actions)|
    ensures forall i :: 0 <= i < |at| ==>
      && at[i] < |actions| && actions[at[i]].Add? && actions[at[i]].data.Some?
      && var add := actions[at[i]];
         AcceptedBy(actions)[i] == DataEntry(add.data.value, 0, add.sequence, add.timestamp)
    ensures forall i, j :: 0 <= i < j < |at| ==> at[i] < at[j]
    ensures forall k :: 0 <= k < |actions| ==>
      (k in at <==> actions[k].Add? && actions[k].data.Some? && |actions[k].data.value| > 0 && Stop !in actions[..k])
  {
    if actions == [] {
      at := [];
    } else {
      var last := |actions| - 1;
      at := AcceptedInOrder(actions[..last]);
      assert forall k :: 0 <= k < last ==> actions[..last][..k] == actions[..k];
      assert actions == actions[..last] + [actions[last]];
      if actions[last].Add? && actions[last].data.Some? && actions[last].data.value != [] && Stop !in actions {
        at := at + [last];
      }
    }
  }

  /** How entries become publishes: the size of a slot and the transform chain, which is applied after the
      size check. */
  datatype Delivery = Delivery(sizePerFrame: uint32, transform: seq<uint8> -> seq<uint8>) {
    predicate Skips(entry: DataEntry) {
      |entry.data| > sizePerFrame
    }

    function Sent(entry: DataEntry): DataEntry {
      entry.(data := transform(entry.data))
    }

    /** The entry passes the check, but what is copied is larger than its slot. */
    predicate Overruns(entry: DataEntry) {
      !Skips(entry) && |transform(entry.data)| > sizePerFrame
    }
  }

  ghost predicate AnyOverrun(entries: seq<DataEntry>, d: Delivery) {
    exists i :: 0 <= i < |entries| && d.Overruns(entries[i])
  }

  /** The publishes that come of handling `entries`: oversized payloads are skipped. */
  function Published(entries: seq<DataEntry>, d: Delivery): seq<DataEntry> {
    if entries == [] then
      []
    else
      var before := Published(entries[..|entries| - 1], d);
      var last := entries[|entries| - 1];
      if d.Skips(last) then before else before + [d.Sent(last)]
  }

  lemma PublishedAfter(entries: seq<DataEntry>, last: DataEntry, d: Delivery)
    ensures Published(entries + [last], d)
         == if d.Skips(last) then Published(entries, d) else Published(entries, d) + [d.Sent(last)]
  {
    assert (entries + [last])[..|entries|] == entries;
  }

  lemma OverrunAfter(entries: seq<DataEntry>, last: DataEntry, d: Delivery)
    ensures AnyOverrun(entries + [last], d) <==> AnyOverrun(entries, d) || d.Overruns(last)
  {
    var all := entries + [last];
    assert all[|entries|] == last;
    if AnyOverrun(entries, d) {
      var i :| 0 <= i < |entries| && d.Overruns(entries[i]);
      assert d.Overruns(all[i]);
    }
  }

  /** Nothing that fits is dropped, nothing is published twice and the order is kept: the publishes are the
      accepted entries, transformed, at an increasing choice of positions, which are those of fitting size. */
  lemma {:induction false} PublishedInOrder(entries: seq<DataEntry>, d: Delivery) returns (at: seq<nat>)
    ensures |at| == |Published(entries, d)|
    ensures forall i :: 0 <= i < |at| ==>
      && at[i] < |entries|
      && var entry := entries[at[i]];
         Published(entries, d)[i] == DataEntry(d.transform(entry.data), entry.head, entry.sequence, entry.timestamp)
    ensures forall i, j :: 0 <= i < j < |at| ==> at[i] < at[j]
    ensures forall k :: 0 <= k < |entries| ==> (k in at <==> |entries[k].data| <= d.sizePerFrame)
  {
    if entries == [] {
      at := [];
    } else {
      var last := |entries| - 1;
      at := PublishedInOrder(entries[..last], d);
      if !d.Skips(entries[last]) {
        at := at + [last];
      }
    }
  }

  predicate AllInside(publishes: seq<DataEntry>, size: uint32) {
    forall i :: 0 <= i < |publishes| ==> |publishes[i].data| <= size
  }

  lemma AllInsideStep(publishes: seq<DataEntry>, last: DataEntry, size: uint32)
    ensures AllInside(publishes + [last], size) <==> AllInside(publishes, size) && |last.data| <= size
  {
    var all := publishes + [last];
    assert all[|publishes|] == last;
    assert forall i :: 0 <= i < |publishes| ==> all[i] == publishes[i];
  }

  /** All publishes stay inside their slots if and only if no entry overruns. */
  lemma {:induction false} InsideSlots(entries: seq<DataEntry>, d: Delivery)
    ensures AllInside(Published(entries, d), d.sizePerFrame) <==> !AnyOverrun(entries, d)
  {
    if entries != [] {
      var before, last := entries[..|entries| - 1], entries[|entries| - 1];
      assert entries == before + [last];
      InsideSlots(before, d);
      OverrunAfter(before, last, d);
      AllInsideStep(Published(before, d), d.Sent(last), d.sizePerFrame);
    }
  }

  /** The conversion from two to three bytes per pixel, which leaves entries of other sizes alone. */
  ghost predicate ConvertsPixels(transform: seq<uint8> -> seq<uint8>, pixels: nat) {
    forall data :: |transform(data)| == if |data| == 2 * pixels then 3 * pixels else |data|
  }

  /** With this transform no entry ever overruns if and only if a slot has room for a converted image or not
      even for a raw one. */
  lemma ConversionFits(d: Delivery, pixels: nat)
    requires ConvertsPixels(d.transform, pixels)
    ensures (forall entry :: !d.Overruns(entry)) <==> 3 * pixels <= d.sizePerFrame || d.sizePerFrame < 2 * pixels
  {
    var raw := DataEntry(LittleEndian.Zeros(2 * pixels), 0, 0, 0);
    if 2 * pixels <= d.sizePerFrame < 3 * pixels {
      assert d.Overruns(raw);
    }
  }

  /** The ring holds the publishes of the handled entries, unless one of them has overrun its slot. */
  ghost predicate Delivered(history: seq<DataEntry>, handled: seq<DataEntry>, d: Delivery, overrun: bool) {
    && overrun == AnyOverrun(handled, d)
    && (!overrun ==> history == Published(handled, d))
  }

  /** The size check, the transform and the publish. What an overrun stores behind its slot is not modelled. */
  method Deliver(ring: SharedRing, entry: DataEntry, transform: seq<uint8> -> seq<uint8>,
                 ghost before: seq<DataEntry>, overrun: bool)
    returns (overran: bool)
    requires ring.Valid()
    requires Delivered(ring.history, before, Delivery(ring.shape.sizePerFrame, transform), overrun)
    modifies ring, ring.frames
    ensures ring.Valid()
    ensures var d := Delivery(ring.shape.sizePerFrame, transform);
      && overran == (overrun || d.Overruns(entry))
      && Delivered(ring.history, before + [entry], d, overran)
  {
    ghost var d := Delivery(ring.shape.sizePerFrame, transform);
    PublishedAfter(before, entry, d);
    OverrunAfter(before, entry, d);
    if |entry.data| > ring.shape.sizePerFrame {
      return overrun;
    }
    var sent := entry.(data := transform(entry.data));
    if |sent.data| > ring.shape.sizePerFrame {
      return true;
    }
    ring.Publish(sent);
    overran := overrun;
  }

  // The queue

  /** The accepted entries are those handled, the one in flight and those queued, in this order. */
  ghost predicate Accounted(past: seq<Action>, handled: seq<DataEntry>, inFlight: seq<DataEntry>,
                            queue: seq<DataEntry>, stop: bool)
  {
    && stop == (Stop in past)
    && AcceptedBy(past) == handled + inFlight + queue
  }

  lemma AccountedAdd(past: seq<Action>, handled: seq<DataEntry>, inFlight: seq<DataEntry>, queue: seq<DataEntry>,
                     stop: bool, add: Action)
    requires Accounted(past, handled, inFlight, queue, stop) && add.Add?
    ensures Accounted(past + [add], handled, inFlight,
      if add.data.Some? && add.data.value != [] && !stop
      then queue + [DataEntry(add.data.value, 0, add.sequence, add.timestamp)] else queue, stop)
  {
    AcceptedAfter(past, add);
  }

  lemma AccountedStop(past: seq<Action>, handled: seq<DataEntry>, inFlight: seq<DataEntry>, queue: seq<DataEntry>,
                      stop: bool)
    requires Accounted(past, handled, inFlight, queue, stop)
    ensures Accounted(past + [Stop], handled, inFlight, queue, true)
  {
    AcceptedAfter(past, Stop);
  }

  /** A worker's turn moves an entry on, or none. */
  lemma AccountedTurn(past: seq<Action>, handled: seq<DataEntry>, inFlight: seq<DataEntry>, queue: seq<DataEntry>,
                      stop: bool, turn: Action, handled': seq<DataEntry>, inFlight': seq<DataEntry>,
                      queue': seq<DataEntry>)
    requires Accounted(past, handled, inFlight, queue, stop) && turn.Worker?
    requires handled' + inFlight' + queue' == handled + inFlight + queue
    ensures Accounted(past + [turn], handled', inFlight', queue', stop)
  {
    AcceptedAfter(past, turn);
  }

  class SharedDictWriter {
    const ring: SharedRing
    const transform: seq<uint8> -> seq<uint8>
    var queue: seq<DataEntry>
    var stop: bool
    var inFlight: Option<DataEntry>  // popped by the worker and not yet handled
    var finished: bool               // the worker thread has returned
    var overrun: bool                // a store has left its slot; what the ring holds is open from then on
    ghost var past: seq<Action>      // everything that happened so far
    ghost var handled: seq<DataEntry>

    function Means(): Delivery {
      Delivery(ring.shape.sizePerFrame, transform)
    }

    function InFlight(): seq<DataEntry>
      reads this
    {
      if inFlight.Some? then [inFlight.value] else []
    }

    /** Worker turns still needed for the entries taken on. */
    function Backlog(): nat
      reads this
    {
      2 * |queue| + |InFlight()|
    }

    ghost predicate Valid()
      reads this, ring, ring.frames
    {
      && ring.Valid()
      && Accounted(past, handled, InFlight(), queue, stop)
      && Delivered(ring.history, handled, Means(), overrun)
      && (finished ==> stop && queue == [] && inFlight == None)
    }

    constructor (ring: SharedRing, transform: seq<uint8> -> seq<uint8>)
      requires ring.Valid() && ring.history == []
      ensures Valid() && this.ring == ring && this.transform == transform && past == []
    {
      this.ring, this.transform := ring, transform;
      queue, stop, inFlight, finished, overrun := [], false, None, false, false;
      past, handled := [], [];
    }

    method Enqueue(data: Option<seq<uint8>>, sequence: uint32, timestamp: uint64)
      requires Valid()
      modifies this
      ensures Valid() && past == old(past) + [Add(data, sequence, timestamp)]
      ensures unchanged(`stop, `inFlight, `finished)
    {
      AccountedAdd(past, handled, InFlight(), queue, stop, Add(data, sequence, timestamp));
      past := past + [Add(data, sequence, timestamp)];
      if data == None || data.value == [] {
        return;
      }
      if stop {
        return;
      }
      queue := queue + [DataEntry(data.value, 0, sequence, timestamp)];
    }

    method StopProcessing()
      requires Valid()
      modifies this
      ensures Valid() && stop && past == old(past) + [Stop]
      ensures unchanged(`queue, `inFlight, `finished)
    {
      AccountedStop(past, handled, InFlight(), queue, stop);
      past := past + [Stop];
      if stop {
        return;
      }
      stop := true;
    }

    /** The locked section of the worker loop: wait, return, or pop the front entry. */
    method Take(ready: bool)
      requires Valid() && inFlight == None && !finished
      modifies this
      ensures Valid() && past == old(past) + [Worker(ready)] && stop == old(stop) && handled == old(handled)
      ensures finished <==> stop && old(queue) == []
      ensures old(queue) != [] && (stop || ready) ==> inFlight == Some(old(queue)[0]) && queue == old(queue)[1..]
      ensures old(queue) == [] || (!stop && !ready) ==> inFlight == None && queue == old(queue)
    {
      if queue != [] && (stop || ready) {
        assert handled + [queue[0]] + queue[1..] == handled + [] + queue;
        AccountedTurn(past, handled, [], queue, stop, Worker(ready), handled, [queue[0]], queue[1..]);
      } else {
        AccountedTurn(past, handled, [], queue, stop, Worker(ready), handled, [], queue);
      }
      past := past + [Worker(ready)];
      if !stop && (queue == [] || !ready) {
        return;  // still waiting on the condition variable
      }
      if stop && queue == [] {
        finished := true;
        return;
      }
      inFlight := Some(queue[0]);
      queue := queue[1..];
    }

    /** The unlocked section: deliver the popped entry. */
    method Handle(ready: bool)
      requires Valid() && inFlight.Some?
      modifies this, ring, ring.frames
      ensures Valid() && past == old(past) + [Worker(ready)]
      ensures unchanged(`stop, `queue, `finished) && inFlight == None
      ensures handled == old(handled) + [old(inFlight).value]
    {
      var entry := inFlight.value;
      assert (handled + [entry]) + [] + queue == handled + [entry] + queue;
      AccountedTurn(past, handled, [entry], queue, stop, Worker(ready), handled + [entry], [], queue);
      past := past + [Worker(ready)];
      inFlight := None;
      overrun := Deliver(ring, entry, transform, handled, overrun);
      handled := handled + [entry];
    }

    /** One turn of the worker thread. After a stop each turn brings it closer to returning. */
    method ProcessQueueTurn(ready: bool)
      requires Valid()
      modifies this, ring, ring.frames
      ensures Valid() && past == old(past) + [Worker(ready)] && stop == old(stop)
      ensures old(finished) ==> finished
      ensures old(stop) && !finished ==> Backlog() < old(Backlog())
    {
      if finished {
        AccountedTurn(past, handled, [], queue, stop, Worker(ready), handled, [], queue);
        past := past + [Worker(ready)];
      } else if inFlight == None {
        Take(ready);
      } else {
        Handle(ready);
      }
    }

    /** Any interleaving of producers, stop requests and the worker. */
    method Interleave(actions: seq<Action>)
      requires Valid()
      modifies this, ring, ring.frames
      ensures Valid() && past == old(past) + actions
      // A worker that has returned has handled every accepted entry, in acceptance order.
      ensures finished ==> AllDone()
    {
      for i := 0 to |actions|
        invariant Valid() && past == old(past) + actions[..i]
      {
        Append(old(past), actions, i);
        Act(actions[i]);
      }
      assert actions[..|actions|] == actions;
      AllHandled();
    }

    method Act(action: Action)
      requires Valid()
      modifies this, ring, ring.frames
      ensures Valid() && past == old(past) + [action]
    {
      match action {
        case Add(data, sequence, timestamp) => Enqueue(data, sequence, timestamp);
        case Stop => StopProcessing();
        case Worker(ready) => ProcessQueueTurn(ready);
      }
    }

    static lemma Append<T>(front: seq<T>, s: seq<T>, i: nat)
      requires i < |s|
      ensures (front + s[..i]) + [s[i]] == front + s[..i + 1]
    {
    }

    /** Every accepted entry is handled. */
    ghost predicate AllDone()
      reads this, ring
    {
      Delivered(ring.history, AcceptedBy(past), Means(), overrun)
    }

    lemma AllHandled()
      requires Valid()
      ensures finished ==> AllDone()
    {
      if finished {
        assert handled + InFlight() + queue == handled;
      }
    }

    /** The destructor: stop, then join the worker, which always returns. */
    method Close()
      requires Valid()
      modifies this, ring, ring.frames
      ensures Valid() && finished
      ensures AcceptedBy(past) == old(AcceptedBy(past))
      ensures AllDone()
    {
      StopProcessing();
      while !finished
        invariant Valid() && stop && AcceptedBy(past) == old(AcceptedBy(past))
        decreases Backlog(), !finished
      {
        AcceptedAfter(past, Worker(true));
        ProcessQueueTurn(true);
      }
      AllHandled();
    }
  }

  /** Once a stop is in the run, later adds change nothing. */
  lemma {:induction false} NothingAcceptedAfterStop(actions: seq<Action>, later: seq<Action>)
    requires Stop in actions
    ensures AcceptedBy(actions + later) == AcceptedBy(actions)
  {
    if later == [] {
      assert actions + later == actions;
    } else {
      var front := later[..|later| - 1];
      assert (actions + later)[..|actions + later| - 1] == actions + front;
      NothingAcceptedAfterStop(actions, front);
    }
  }
}
