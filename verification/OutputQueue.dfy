/**
 The queue of pending output writes of carbon_sctypes.h. Output ports are linked through their own
 fields, and a port takes itself to be queued when its next function is not NULL. That is not so for
 the last port of the queue, which a second change therefore links to the front again: the queue may
 then visit one port twice. The ghost field `pending` of a queue lists the ports a drain will visit.
 */
module OutputQueue {

  import opened Bits
  import opened LogicVector
  import opened Wrappers

  /** carbon_uint32_to_sc of one SystemC type: what value and drive words become, as the bits of the SystemC value. */
  type Conversion = (seq<word>, seq<word>) -> seq<Logic>

  /** The template arguments of a port: its width, whether its buffer has drive words, and its SystemC type. */
  datatype Kind = Kind(bits: nat, threeState: bool, toSc: Conversion)

  /** A write function pointer: NULL, or performWrite of one template instance. */
  datatype Func = NoFunc | Write(kind: Kind)

  /** Every visit of a queue but the last. */
  function Front<T>(q: seq<T>): (f: seq<T>)
    ensures |f| == if q == [] then 0 else |q| - 1
  {
    if q == [] then [] else q[..|q| - 1]
  }

  function Behind<T>(q: seq<T>, i: nat): T
    requires i < |Front(q)|
  {
    q[i + 1]
  }

  /** The queue after `p` has asked to be queued: `p` goes to the front unless it has a link already. */
  function Enqueued<T(==)>(q: seq<T>, p: T): seq<T> {
    if p in Front(q) then q else [p] + q
  }

  /** The queue `q` after the first `n` of `calls` have asked to be queued. */
  function QueueAfter<T(==)>(q: seq<T>, calls: seq<T>, n: nat): seq<T>
    requires n <= |calls|
  {
    if n == 0 then q else Enqueued(QueueAfter(q, calls, n - 1), calls[n - 1])
  }

  ghost predicate NoDuplicates<T>(s: seq<T>) {
    forall i, j :: 0 <= i < j < |s| ==> s[i] != s[j]
  }

  lemma EnqueuedFront<T>(q: seq<T>, p: T)
    requires q != [] && p !in Front(q)
    ensures Front(Enqueued(q, p)) == [p] + Front(q)
  {
  }

  lemma EnqueuedMembers<T>(q: seq<T>, p: T, x: T)
    ensures x in Enqueued(q, p) <==> x in q || x == p
  {
  }

  lemma PrependDistinct<T>(p: T, s: seq<T>)
    requires NoDuplicates(s) && p !in s
    ensures NoDuplicates([p] + s)
  {
  }

  /** Queueing keeps the links of a queue distinct. */
  lemma EnqueuedDistinct<T>(q: seq<T>, p: T)
    requires NoDuplicates(Front(q))
    ensures NoDuplicates(Front(Enqueued(q, p)))
  {
    if q != [] && p !in Front(q) {
      EnqueuedFront(q, p);
      PrependDistinct(p, Front(q));
    }
  }

  lemma EnqueuedShape<T>(q: seq<T>, c: T, p: T)
    requires q != []
    ensures Enqueued(q, c) != [] && Enqueued(q, c)[|Enqueued(q, c)| - 1] == q[|q| - 1]
    ensures p in Front(Enqueued(q, c)) <==> p in Front(q) || p == c
  {
    if c !in Front(q) {
      EnqueuedFront(q, c);
    }
  }

  lemma SliceGrows<T>(calls: seq<T>, n: nat, p: T)
    requires 1 < n <= |calls|
    ensures p in calls[1..n] <==> p in calls[1..n - 1] || p == calls[n - 1]
  {
    assert calls[1..n] == calls[1..n - 1] + [calls[n - 1]];
  }

  /** From an empty queue, the first caller is visited last, and the links belong to those that called after it. */
  lemma {:induction false} AfterShape<T>(calls: seq<T>, n: nat, p: T)
    requires 0 < n <= |calls|
    ensures QueueAfter([], calls, n) != [] && QueueAfter([], calls, n)[|QueueAfter([], calls, n)| - 1] == calls[0]
    ensures NoDuplicates(Front(QueueAfter([], calls, n)))
    ensures p in Front(QueueAfter([], calls, n)) <==> p in calls[1..n]
    decreases n
  {
    if n == 1 {
      assert QueueAfter([], calls, 1) == [calls[0]];
    } else {
      AfterShape(calls, n - 1, p);
      EnqueuedDistinct(QueueAfter([], calls, n - 1), calls[n - 1]);
      EnqueuedShape(QueueAfter([], calls, n - 1), calls[n - 1], p);
      SliceGrows(calls, n, p);
    }
  }

  function Count<T(==)>(s: seq<T>, p: T): nat {
    if s == [] then 0 else Count(s[..|s| - 1], p) + if s[|s| - 1] == p then 1 else 0
  }

  lemma {:induction false} CountDistinct<T>(s: seq<T>, p: T)
    requires NoDuplicates(s)
    ensures Count(s, p) == if p in s then 1 else 0
  {
    if s != [] {
      CountDistinct(s[..|s| - 1], p);
      assert s == s[..|s| - 1] + [s[|s| - 1]];
    }
  }

  lemma {:induction false} CalledBefore<T>(calls: seq<T>, n: nat, p: T)
    requires n <= |calls| && p in QueueAfter([], calls, n)
    ensures p in calls[..n]
  {
    if n > 0 {
      if p in QueueAfter([], calls, n - 1) {
        CalledBefore(calls, n - 1, p);
      }
      assert calls[..n] == calls[..n - 1] + [calls[n - 1]];
    }
  }

  lemma CountLast<T>(q: seq<T>, p: T)
    requires q != [] && NoDuplicates(Front(q))
    ensures Count(q, p) == (if p in Front(q) then 1 else 0) + if p == q[|q| - 1] then 1 else 0
  {
    CountDistinct(Front(q), p);
  }

  /** A drain visits each port that called once, and the first caller once more if it called again. */
  lemma VisitsOnce<T>(calls: seq<T>, p: T)
    requires calls != []
    ensures Count(QueueAfter([], calls, |calls|), p)
      == (if p in calls[1..] then 1 else 0) + if p == calls[0] then 1 else 0
  {
    AfterShape(calls, |calls|, p);
    assert calls[1..|calls|] == calls[1..];
    CountLast(QueueAfter([], calls, |calls|), p);
  }

  /** One net change reported by the model. */
  datatype Event = Event(port: Port, value: seq<word>, drive: Option<seq<word>>)

  /** An event of one of `ports`, of the size of its net. */
  ghost predicate Fits(ports: set<Port>, e: Event) {
    && e.port in ports
    && |e.value| == Words(e.port.kind.bits)
    && (e.drive.Some? ==> |e.drive.value| == Words(e.port.kind.bits))
  }

  function Callers(events: seq<Event>): (ps: seq<Port>)
    ensures |ps| == |events|
  {
    seq(|events|, i requires 0 <= i < |events| => events[i].port)
  }

  /** The ports of `s` and of the first `n` events. */
  function Touched(s: set<Port>, events: seq<Event>, n: nat): set<Port>
    requires n <= |events|
  {
    if n == 0 then s else Touched(s, events, n - 1) + {events[n - 1].port}
  }

  lemma {:induction false} TouchedIff(s: set<Port>, events: seq<Event>, n: nat, p: Port)
    requires n <= |events|
    ensures p in Touched(s, events, n) <==> p in s || p in Callers(events)[..n]
    decreases n
  {
    if n > 0 {
      TouchedIff(s, events, n - 1, p);
      assert Callers(events)[..n] == Callers(events)[..n - 1] + [events[n - 1].port];
    }
  }

  /** The value and drive words that the first `n` events leave in the buffer of `p`. */
  function ValueAfter(p: Port, was: seq<word>, events: seq<Event>, n: nat): seq<word>
    requires n <= |events|
  {
    if n == 0 then was
    else if events[n - 1].port == p then events[n - 1].value
    else ValueAfter(p, was, events, n - 1)
  }

  function DriveAfter(p: Port, was: seq<word>, events: seq<Event>, n: nat): seq<word>
    requires n <= |events|
  {
    if n == 0 then was
    else if events[n - 1].port == p && p.kind.threeState && events[n - 1].drive.Some? then events[n - 1].drive.value
    else DriveAfter(p, was, events, n - 1)
  }

  /** That is the value of the last event of the port, if there is one. */
  lemma {:induction false} ValueIsLast(p: Port, was: seq<word>, events: seq<Event>, n: nat, i: nat)
    requires i < n <= |events| && events[i].port == p && forall k :: i < k < n ==> events[k].port != p
    ensures ValueAfter(p, was, events, n) == events[i].value
    decreases n
  {
    if i < n - 1 {
      ValueIsLast(p, was, events, n - 1, i);
    }
  }

  /** And the drive words of the last one that brings any, if the buffer has drive words. */
  lemma {:induction false} DriveIsLast(p: Port, was: seq<word>, events: seq<Event>, n: nat, i: nat)
    requires i < n <= |events| && p.kind.threeState && events[i].port == p && events[i].drive.Some?
    requires forall k :: i < k < n ==> events[k].port != p || events[k].drive.None?
    ensures DriveAfter(p, was, events, n) == events[i].drive.value
    decreases n
  {
    if i < n - 1 {
      DriveIsLast(p, was, events, n - 1, i);
    }
  }

  /** A port without such events keeps its buffer. */
  lemma {:induction false} BufferStays(p: Port, was: seq<word>, events: seq<Event>, n: nat)
    requires n <= |events|
    ensures (forall k :: 0 <= k < n ==> events[k].port != p) ==> ValueAfter(p, was, events, n) == was
    ensures (forall k :: 0 <= k < n ==> events[k].port != p || events[k].drive.None? || !p.kind.threeState) ==>
      DriveAfter(p, was, events, n) == was
  {
    if n > 0 {
      BufferStays(p, was, events, n - 1);
    }
  }

  lemma NoCalls(q: seq<Port>, s: set<Port>, events: seq<Event>)
    ensures QueueAfter(q, Callers(events), 0) == q && Touched(s, events, 0) == s
  {
  }

  lemma NextCall(q: seq<Port>, s: set<Port>, events: seq<Event>, i: nat)
    requires i < |events|
    ensures QueueAfter(q, Callers(events), i + 1) == Enqueued(QueueAfter(q, Callers(events), i), events[i].port)
    ensures Touched(s, events, i + 1) == Touched(s, events, i) + {events[i].port}
  {
    hide Enqueued;
  }

  class Port {
    const kind: Kind
    const queue: Queue
    var value: seq<word>
    var drive: seq<word>
    var written: Option<seq<Logic>>
    var nextData: Port?
    var nextFunc: Func

    /** The constructor and initialize: a zeroed buffer, no link, nothing written. */
    constructor (kind: Kind, queue: Queue)
      requires queue.Valid()
      modifies queue`ports
      ensures queue.Valid() && queue.ports == old(queue.ports) + {this} && this !in old(queue.ports)
      ensures this.kind == kind && this.queue == queue && written == None && nextFunc == NoFunc
      ensures forall k :: 0 <= k < |value| ==> value[k] == drive[k] == ZERO
    {
      this.kind, this.queue := kind, queue;
      value := seq(Words(kind.bits), _ => ZERO);
      drive := seq(Words(kind.bits), _ => ZERO);
      written, nextData, nextFunc := None, null, NoFunc;
      new;
      queue.ports := queue.ports + {this};
    }

    ghost predicate Sized()
      reads `value, `drive
    {
      |value| == |drive| == Words(kind.bits)
    }

    /** The port shows its buffer. */
    ghost predicate Shows()
      reads `value, `drive, `written
    {
      Sized() && written == Some(kind.toSc(value, drive))
    }

    ghost predicate LinksTo(next: Port)
      reads `nextData, `nextFunc
    {
      nextData == next && nextFunc == Write(next.kind)
    }

    /** enqueueWrite. */
    method EnqueueWrite()
      requires queue.Linked() && this in queue.ports
      modifies queue`data, queue`func, queue`pending, this`nextData, this`nextFunc
      ensures queue.Linked()
      ensures queue.pending == Enqueued(old(queue.pending), this)
    {
      hide Port.Sized, NoDuplicates, Front, Behind;
      ghost var q := queue.pending;
      queue.LinkedIff(this);
      if nextFunc.NoFunc? {
        nextData := queue.data;
        nextFunc := queue.func;
        queue.data := this;
        queue.func := Write(kind);
        queue.pending := [this] + q;
        EnqueuedDistinct(q, this);
        PushFront(q, this);
        ghost var f := Front(queue.pending);
        forall i | 0 <= i < |f| ensures f[i].LinksTo(Behind(queue.pending, i)) {
          if i > 0 {
            BehindPush(q, this, i);
          }
        }
        forall p | p in queue.ports && p !in f ensures p.nextData == null && p.nextFunc == NoFunc {
          PushMembers(q, this, p);
        }
      } else {
        assert queue.pending == Enqueued(q, this);
      }
    }

    /** setBuffer: a two-state buffer has no drive words, and a NULL drive leaves them alone. */
    method SetBuffer(newValue: seq<word>, newDrive: Option<seq<word>>)
      requires queue.Linked() && this in queue.ports
      requires |newValue| == Words(kind.bits)
      requires newDrive.Some? ==> |newDrive.value| == Words(kind.bits)
      modifies this`value, this`drive
      ensures queue.Linked() && value == newValue && drive == NewDrive(old(drive), newDrive)
    {
      hide NoDuplicates, Front, LinksTo;
      value := newValue;
      if kind.threeState && newDrive.Some? {
        drive := newDrive.value;
      }
    }

    function NewDrive(was: seq<word>, newDrive: Option<seq<word>>): seq<word> {
      if kind.threeState && newDrive.Some? then newDrive.value else was
    }

    /** vhmOutputPortChange, called when the net changes value. */
    method Change(newValue: seq<word>, newDrive: Option<seq<word>>)
      requires queue.Valid() && this in queue.ports
      requires |newValue| == Words(kind.bits)
      requires newDrive.Some? ==> |newDrive.value| == Words(kind.bits)
      modifies queue`data, queue`func, queue`pending, queue`signalled
      modifies this`value, this`drive, this`nextData, this`nextFunc
      ensures queue.Valid()
      ensures queue.pending == Enqueued(old(queue.pending), this)
      ensures queue.signalled == old(queue.signalled) + {this}
      ensures value == newValue && drive == NewDrive(old(drive), newDrive)
    {
      hide Queue.Linked, Shows, Enqueued;
      ghost var q := queue.pending;
      SetBuffer(newValue, newDrive);
      EnqueueWrite();
      queue.signalled := queue.signalled + {this};
      forall p | p in queue.signalled && p !in queue.pending ensures p.Shows() {
        EnqueuedMembers(q, this, p);
      }
    }

    /** dequeueWrite, at the head of the queue. */
    method DequeueWrite()
      requires queue.Linked() && queue.data == this
      modifies queue`data, queue`func, queue`pending, this`nextData, this`nextFunc
      ensures queue.Linked() && old(queue.pending) != [] && old(queue.pending)[0] == this
      ensures queue.pending == old(queue.pending)[1..]
    {
      hide Port.Sized, NoDuplicates;
      ghost var q := queue.pending;
      queue.data := nextData;
      queue.func := nextFunc;
      nextData := null;
      nextFunc := NoFunc;
      queue.pending := q[1..];
      PopFront(q);
      ghost var f := Front(queue.pending);
      forall i | 0 <= i < |f| ensures f[i].LinksTo(Behind(queue.pending, i)) {
        BehindPop(q, i);
        assert f[i] == Front(q)[i + 1] != this;
      }
    }

    /** Converts the buffer and writes the port. */
    method Show(instance: Kind)
      requires instance == kind && queue.Linked() && queue.data == this
      modifies this`written
      ensures queue.Linked() && Shows()
    {
      hide NoDuplicates, Front, LinksTo;
      written := Some(instance.toSc(value, drive));
    }

    /** performWrite of one template instance, on the port it was queued with. */
    method PerformWrite(instance: Kind)
      requires instance == kind
      requires queue.Valid() && queue.data == this
      modifies queue`data, queue`func, queue`pending, queue`writes
      modifies this`written, this`nextData, this`nextFunc
      ensures queue.Valid()
      ensures queue.pending == old(queue.pending)[1..]
      ensures queue.writes == old(queue.writes) + [this]
      ensures Shows()
    {
      hide Queue.Linked, Shows;
      Show(instance);
      queue.writes := queue.writes + [this];
      DequeueWrite();
    }
  }

  /** carbon_uint32_to_sc of a logic vector, with drive words or without. */
  function VectorToSc(bits: nat, threeState: bool): Conversion {
    (value, drive) =>
      if |value| == |drive| == Words(bits) then
        seq(bits, k requires 0 <= k < bits =>
          if threeState then Read(value, drive, k) else if BitAt(value, k) then One else Zero)
      else []
  }

  /** A port of a logic vector shows its buffer bit for bit. */
  lemma VectorShows(p: Port, bits: nat, threeState: bool, k: nat)
    requires p.kind == Kind(bits, threeState, VectorToSc(bits, threeState)) && p.Shows() && k < bits
    ensures |p.written.value| == bits
    ensures p.written.value[k] ==
      if threeState then Read(p.value, p.drive, k) else if BitAt(p.value, k) then One else Zero
  {
  }

  lemma PushFront<T>(q: seq<T>, p: T)
    ensures if q == [] then Front([p] + q) == []
            else Front([p] + q) != [] && Front([p] + q)[0] == p && Behind([p] + q, 0) == q[0]
  {
  }

  lemma BehindPush<T>(q: seq<T>, p: T, i: nat)
    requires 0 < i < |Front([p] + q)| && p !in Front(q)
    ensures i - 1 < |Front(q)| && Front([p] + q)[i] == Front(q)[i - 1] != p && Behind([p] + q, i) == Behind(q, i - 1)
  {
  }

  lemma PushMembers<T>(q: seq<T>, p: T, x: T)
    requires x !in Front([p] + q)
    ensures x !in Front(q) && (q != [] ==> x != p)
  {
    if q != [] {
      assert Front([p] + q) == [p] + Front(q);
    }
  }

  lemma BehindPop<T>(q: seq<T>, i: nat)
    requires q != [] && i < |Front(q[1..])|
    ensures i + 1 < |Front(q)| && Front(q[1..])[i] == Front(q)[i + 1] && Behind(q[1..], i) == Behind(q, i + 1)
  {
    assert q[1..][i] == q[i + 1] && q[1..][i + 1] == q[i + 2];
  }

  /** Popping a queue drops its first link. */
  lemma PopFront<T>(q: seq<T>)
    requires q != [] && NoDuplicates(Front(q))
    ensures NoDuplicates(Front(q[1..]))
    ensures |q| > 1 ==> Front(q) == [q[0]] + Front(q[1..]) && q[0] !in Front(q[1..])
  {
  }

  class Queue {
    var data: Port?
    var func: Func
    ghost var ports: set<Port>
    ghost var pending: seq<Port>
    ghost var signalled: set<Port>
    ghost var writes: seq<Port>

    /** The links spell out `pending`, and every port outside its front has none. */
    ghost predicate Linked()
      reads `data, `func, `ports, `pending, ports
    {
      && (forall p :: p in ports ==> p.queue == this && p.Sized())
      && (forall i :: 0 <= i < |pending| ==> pending[i] in ports)
      && NoDuplicates(Front(pending))
      && data == (if pending == [] then null else pending[0])
      && func == (if pending == [] then NoFunc else Write(pending[0].kind))
      && (forall i :: 0 <= i < |Front(pending)| ==> Front(pending)[i].LinksTo(Behind(pending, i)))
      && (forall p :: p in ports && p !in Front(pending) ==> p.nextData == null && p.nextFunc == NoFunc)
    }

    /** The test of enqueueWrite: a port has a link just when it stands before the last visit. */
    lemma LinkedIff(p: Port)
      requires Linked() && p in ports
      ensures p.nextFunc != NoFunc <==> p in Front(pending)
    {
      if p in Front(pending) {
        var i :| 0 <= i < |Front(pending)| && Front(pending)[i] == p;
        assert p.LinksTo(Behind(pending, i));
      }
    }

    /** No update is lost: a port that has changed and awaits no visit shows its buffer. */
    ghost predicate Valid()
      reads this, ports
    {
      && Linked()
      && signalled <= ports
      && (forall p :: p in signalled && p !in pending ==> p.Shows())
    }

    constructor ()
      ensures Valid() && ports == {} && pending == [] && signalled == {} && writes == []
    {
      data, func := null, NoFunc;
      ports, pending, signalled, writes := {}, [], {}, [];
    }

    /** One turn of the loop: calls the head's function on the head. */
    method WriteNext()
      requires Valid() && func != NoFunc
      modifies this`data, this`func, this`pending, this`writes, ports`written, ports`nextData, ports`nextFunc
      ensures Valid() && old(pending) != [] && pending == old(pending)[1..]
      ensures writes == old(writes) + [old(pending)[0]]
      ensures forall p :: p in ports && p != old(pending)[0] ==> p.written == old(p.written)
    {
      data.PerformWrite(func.kind);
    }

    /** carbon_write_outputs: calls the head's function until there is none. */
    method Drain()
      requires Valid()
      modifies this`data, this`func, this`pending, this`writes, ports`written, ports`nextData, ports`nextFunc
      ensures Valid() && pending == []
      ensures data == null && func == NoFunc && forall p :: p in ports ==> p.nextData == null && p.nextFunc == NoFunc
      ensures writes == old(writes) + old(pending)
      ensures forall p :: p in signalled ==> p.Shows()
      ensures forall p :: p in ports && p !in old(pending) ==> p.written == old(p.written)
    {
      hide NoDuplicates, Front;
      ghost var q, w := pending, writes;
      ghost var k := 0;
      while func != NoFunc
        invariant Valid() && k <= |q|
        invariant pending == q[k..] && writes == w + q[..k]
        invariant forall p :: p in ports && p !in q ==> p.written == old(p.written)
        decreases |pending|
      {
        assert q[..k + 1] == q[..k] + [q[k]];
        WriteNext();
        k := k + 1;
      }
      assert q[..k] == q;
    }

    /** The drain ends: each write uses up one link, or the head. */
    lemma Measure()
      requires Valid()
      ensures |pending| == |set p | p in ports && p.nextFunc != NoFunc| + if func == NoFunc then 0 else 1
    {
      var links := set p | p in ports && p.nextFunc != NoFunc;
      forall p: Port ensures p in links <==> p in Front(pending) {
        if p in Front(pending) {
          var i :| 0 <= i < |Front(pending)| && Front(pending)[i] == p;
          assert pending[i] in ports;
        }
        if p in ports {
          LinkedIff(p);
        }
      }
      DistinctSize(Front(pending), links);
    }

    /** The buffers of all ports are those that the first `n` events leave. */
    ghost predicate Buffers(was: map<Port, (seq<word>, seq<word>)>, events: seq<Event>, n: nat)
      requires n <= |events| && ports <= was.Keys
      reads this, ports
    {
      forall p :: p in ports ==>
        p.value == ValueAfter(p, was[p].0, events, n) && p.drive == DriveAfter(p, was[p].1, events, n)
    }

    /** One callback. */
    method Deliver(events: seq<Event>, i: nat, ghost was: map<Port, (seq<word>, seq<word>)>)
      requires Valid() && i < |events| && Fits(ports, events[i])
      requires ports <= was.Keys && Buffers(was, events, i)
      modifies this`data, this`func, this`pending, this`signalled
      modifies ports`value, ports`drive, ports`nextData, ports`nextFunc
      ensures Valid() && Buffers(was, events, i + 1)
      ensures pending == Enqueued(old(pending), events[i].port)
      ensures signalled == old(signalled) + {events[i].port}
    {
      events[i].port.Change(events[i].value, events[i].drive);
    }

    /** The callbacks of one schedule of the model. */
    method Schedule(events: seq<Event>)
      requires Valid() && forall i :: 0 <= i < |events| ==> Fits(ports, events[i])
      modifies this`data, this`func, this`pending, this`signalled
      modifies ports`value, ports`drive, ports`nextData, ports`nextFunc
      ensures Valid()
      ensures pending == QueueAfter(old(pending), Callers(events), |events|)
      ensures signalled == Touched(old(signalled), events, |events|)
      ensures forall p :: p in ports ==> p.value == ValueAfter(p, old(p.value), events, |events|)
      ensures forall p :: p in ports ==> p.drive == DriveAfter(p, old(p.drive), events, |events|)
    {
      hide Queue.Valid, Queue.Linked, Enqueued, QueueAfter, Touched;
      ghost var q, s := pending, signalled;
      NoCalls(q, s, events);
      ghost var was := map p | p in ports :: (p.value, p.drive);
      var i := 0;
      while i < |events|
        invariant 0 <= i <= |events| && Valid()
        invariant pending == QueueAfter(q, Callers(events), i)
        invariant signalled == Touched(s, events, i)
        invariant Buffers(was, events, i)
      {
        NextCall(q, s, events, i);
        Deliver(events, i, was);
        i := i + 1;
      }
    }

    /**
     A schedule and the drain after it: every port that ever changed shows its latest value, and the
     writes are those of the queue that the callbacks built.
     */
    method Cycle(events: seq<Event>)
      requires Valid() && pending == [] && forall i :: 0 <= i < |events| ==> Fits(ports, events[i])
      modifies this`data, this`func, this`pending, this`signalled, this`writes, ports
      ensures Valid() && pending == []
      ensures writes == old(writes) + QueueAfter([], Callers(events), |events|)
      ensures forall p :: p in old(signalled) || p in Callers(events) ==> p in ports && p.Sized()
      ensures forall p :: p in old(signalled) || p in Callers(events) ==>
        p.written == Some(p.kind.toSc(p.value, p.drive))
      ensures forall p :: p in ports && p !in Callers(events) ==> p.written == old(p.written)
      ensures forall p :: p in ports ==> p.value == ValueAfter(p, old(p.value), events, |events|)
      ensures forall p :: p in ports ==> p.drive == DriveAfter(p, old(p.drive), events, |events|)
    {
      ghost var s := signalled;
      Schedule(events);
      Drain();
      assert Callers(events)[..|events|] == Callers(events);
      forall p | p in QueueAfter([], Callers(events), |events|) ensures p in Callers(events) {
        CalledBefore(Callers(events), |events|, p);
      }
      forall p | p in s || p in Callers(events) ensures p in signalled {
        TouchedIff(s, events, |events|, p);
      }
    }
  }

  lemma {:induction false} DistinctSize<T>(s: seq<T>, elements: set<T>)
    requires NoDuplicates(s)
    requires forall p :: p in elements <==> p in s
    ensures |elements| == |s|
  {
    if s == [] {
      assert elements == {};
    } else {
      var last := s[|s| - 1];
      assert s == s[..|s| - 1] + [last];
      DistinctSize(s[..|s| - 1], elements - {last});
    }
  }
}
