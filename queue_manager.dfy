/**
 * The FIFO of terminals waiting for user input. Every mutation of the queue
 * fires a change event carrying a length; `events` records, in order, the
 * length passed to each of those fires.
 */
module QueueManager {
  import opened Wrappers
  import opened Sequences
  import opened Host

  /** One pending input request: the terminal, its prompt and when it was queued. */
  datatype TerminalInputRequest = TerminalInputRequest(terminal: Terminal, question: string, timestamp: int)

  /** The prompt `enqueue` uses when the caller gives none. */
  const DefaultQuestion: string := "입력이 필요합니다"

  /** Keeps the requests that are not for `terminal`. */
  function NotFor(terminal: Terminal): TerminalInputRequest -> bool {
    (req: TerminalInputRequest) => req.terminal != terminal
  }

  /** The queue with every request for `terminal` taken out, others in order. */
  function Without(queue: seq<TerminalInputRequest>, terminal: Terminal): (r: seq<TerminalInputRequest>)
    ensures |r| <= |queue|
    ensures forall i :: 0 <= i < |r| ==> r[i].terminal != terminal
  {
    FilterIsSubsequence(queue, NotFor(terminal));
    Filter(queue, NotFor(terminal))
  }

  /** Some request in `queue` is for `terminal`. */
  predicate Pending(queue: seq<TerminalInputRequest>, terminal: Terminal)
    ensures Pending(queue, terminal) <==> exists req :: req in queue && req.terminal == terminal
  {
    exists i :: 0 <= i < |queue| && queue[i].terminal == terminal
  }

  /**
   * `Without` removes exactly the requests for `terminal`: none is left, and
   * every other request keeps all of its occurrences, in the original order.
   */
  lemma WithoutRemovesExactly(queue: seq<TerminalInputRequest>, terminal: Terminal)
    ensures !Pending(Without(queue, terminal), terminal)
    ensures forall req: TerminalInputRequest :: req.terminal != terminal ==>
              multiset(Without(queue, terminal))[req] == multiset(queue)[req]
    ensures IsSubsequence(Without(queue, terminal), queue)
  {
    var p := NotFor(terminal);
    FilterIsSubsequence(queue, p);
    forall req: TerminalInputRequest | req.terminal != terminal
      ensures multiset(Without(queue, terminal))[req] == multiset(queue)[req]
    {
      FilterMultiplicity(queue, p, req);
    }
  }

  /**
   * The queue gets shorter exactly when the terminal had a pending request, and
   * is left as it was otherwise.
   */
  lemma WithoutShortensIffPending(queue: seq<TerminalInputRequest>, terminal: Terminal)
    ensures |Without(queue, terminal)| < |queue| <==> Pending(queue, terminal)
    ensures !Pending(queue, terminal) ==> Without(queue, terminal) == queue
  {
    var p := NotFor(terminal);
    FilterShortens(queue, p);
    assert Pending(queue, terminal) <==> !(forall i :: 0 <= i < |queue| ==> p(queue[i]));
  }

  class TerminalQueueManager {
    var queue: seq<TerminalInputRequest>
    ghost var events: seq<int>

    constructor ()
      ensures queue == [] && events == []
    {
      queue := [];
      events := [];
    }

    /** Appends a request at the tail, whether or not the terminal is already queued. */
    method Enqueue(terminal: Terminal, now: int, question: string := DefaultQuestion)
      modifies this
      ensures queue == old(queue) + [TerminalInputRequest(terminal, question, now)]
      ensures |queue| == |old(queue)| + 1
      ensures events == old(events) + [|queue|]
    {
      queue := queue + [TerminalInputRequest(terminal, question, now)];
      events := events + [|queue|];
    }

    /** The head of the queue, left in place. */
    method Peek() returns (head: Option<TerminalInputRequest>)
      ensures head.None? <==> queue == []
      ensures head.Some? ==> head.value == queue[0]
    {
      head := if queue == [] then None else Some(queue[0]);
    }

    /** Takes the head off; fires the new length even when there was nothing to take. */
    method Dequeue() returns (head: Option<TerminalInputRequest>)
      modifies this
      ensures old(queue) == [] ==> head == None && queue == []
      ensures old(queue) != [] ==> head == Some(old(queue)[0]) && queue == old(queue)[1..]
      ensures events == old(events) + [|queue|]
    {
      if queue == [] {
        head := None;
      } else {
        head := Some(queue[0]);
        queue := queue[1..];
      }
      events := events + [|queue|];
    }

    /**
     * Drops every request for `terminal`; reports whether the length changed and
     * fires the new length only then.
     */
    method Remove(terminal: Terminal) returns (removed: bool)
      modifies this
      ensures queue == Without(old(queue), terminal)
      ensures removed <==> Pending(old(queue), terminal)
      ensures events == old(events) + (if removed then [|queue|] else [])
    {
      var initialLength := |queue|;
      queue := Filter(queue, NotFor(terminal));
      removed := initialLength != |queue|;
      WithoutShortensIffPending(old(queue), terminal);
      if removed {
        events := events + [|queue|];
      }
    }

    /** Empties the queue; fires 0 only if there was something to drop. */
    method Clear()
      modifies this
      ensures queue == []
      ensures events == old(events) + (if old(queue) != [] then [0] else [])
    {
      var count := |queue|;
      queue := [];
      if count > 0 {
        events := events + [0];
      }
    }

    /** The `length` getter. */
    function Length(): (n: nat)
      reads this
      ensures n == 0 <==> queue == []
      ensures n == |queue|
    {
      |queue|
    }

    predicate IsEmpty()
      reads this
      ensures IsEmpty() <==> Length() == 0
    {
      |queue| == 0
    }

    /** A copy of the pending requests, head first. */
    method GetAll() returns (all: seq<TerminalInputRequest>)
      ensures all == queue
      ensures |all| == Length()
    {
      all := queue;
    }

    /** Drops every request; the emitter is released without firing. */
    method Dispose()
      modifies this
      ensures queue == []
      ensures events == old(events)
    {
      queue := [];
    }
  }

  /**
   * First in, first out: two requests enqueued on an empty queue are seen by
   * `peek` without being taken, come back from `dequeue` in the order they went
   * in, and a third dequeue finds nothing.
   */
  method FirstInFirstOut(a: Terminal, b: Terminal, qa: string, qb: string, ta: int, tb: int)
    returns (peeked: Option<TerminalInputRequest>, lengthAfterPeek: nat,
             first: Option<TerminalInputRequest>, second: Option<TerminalInputRequest>,
             third: Option<TerminalInputRequest>, remaining: nat,
             lengthAfterFirst: nat, ghost fired: seq<int>)
    ensures peeked == Some(TerminalInputRequest(a, qa, ta)) && lengthAfterPeek == 2
    ensures first == Some(TerminalInputRequest(a, qa, ta))
    ensures second == Some(TerminalInputRequest(b, qb, tb))
    ensures lengthAfterFirst == 1
    ensures third == None && remaining == 0
    ensures fired == [1, 2, 1, 0, 0]
  {
    var m := new TerminalQueueManager();
    m.Enqueue(a, ta, qa);
    m.Enqueue(b, tb, qb);
    peeked := m.Peek();
    lengthAfterPeek := m.Length();
    first := m.Dequeue();
    lengthAfterFirst := m.Length();
    second := m.Dequeue();
    third := m.Dequeue();
    remaining := m.Length();
    fired := m.events;
  }
}
