/**
 The picture and subpicture queues of the player: one producer and one consumer thread share a ring
 whose indices belong to one thread each and whose size alone is protected by a lock. Every method
 of `Ring` is one atomic step; slots are filled, read and freed outside the lock.
 */
module SlotRing {
  import opened Modular

  datatype Slot<+T> = Free | Held(item: T)

  /** Where the producer is: waiting for space, owning the slot it fills, or past it without having counted it. */
  datatype Producer = Waiting | Owning | Allocating | Filled | Advanced | Stopped

  /** Where the consumer is: idle, owning the slot it shows, or past it without having given it back. */
  datatype Consumer = Idle | Showing | Released

  /** The slot of the `i`-th item. */
  function Index(i: nat, capacity: nat): (k: nat)
    requires capacity > 0
    ensures k < capacity
  {
    i % capacity
  }

  lemma NextIndex(i: nat, capacity: nat)
    requires capacity > 0
    ensures Index(i + 1, capacity) == if Index(i, capacity) + 1 == capacity then 0 else Index(i, capacity) + 1
    ensures Index(i + 1, capacity) == (Index(i, capacity) + 1) % capacity
  {
    var k := Index(i, capacity);
    ModSucc(i, capacity);
    if k + 1 == capacity {
      ModUnique(k + 1, capacity, 1, 0);
    } else {
      ModUnique(k + 1, capacity, 0, k + 1);
    }
  }

  /** The items from number `lo` on are in their slots. */
  ghost predicate Stored<T>(cells: seq<Slot<T>>, put: seq<T>, lo: nat)
    requires |cells| > 0
  {
    forall i :: lo <= i < |put| ==> cells[Index(i, |cells|)] == Held(put[i])
  }

  lemma StoredAt<T>(cells: seq<Slot<T>>, put: seq<T>, lo: nat, i: nat)
    requires |cells| > 0 && Stored(cells, put, lo) && lo <= i < |put|
    ensures cells[Index(i, |cells|)] == Held(put[i])
    ensures Stored(cells, put, i) && Stored(cells, put, i + 1)
  {
  }

  /** A slot outside the window may change. */
  lemma StoredAfterChange<T>(cells: seq<Slot<T>>, put: seq<T>, lo: nat, k: nat, v: Slot<T>)
    requires |cells| > 0 && k < |cells| && Stored(cells, put, lo)
    requires forall i :: lo <= i < |put| ==> Index(i, |cells|) != k
    ensures Stored(cells[k := v], put, lo)
  {
  }

  lemma StoredSnoc<T>(cells: seq<Slot<T>>, put: seq<T>, lo: nat)
    requires |cells| > 0 && Stored(cells, put, lo) && cells[Index(|put|, |cells|)].Held?
    ensures Stored(cells, put + [cells[Index(|put|, |cells|)].item], lo)
  {
    hide Index;
  }

  /** Items less than a round apart are in different slots. */
  lemma Apart(lo: nat, hi: nat, capacity: nat)
    requires lo <= hi < lo + capacity
    ensures forall i :: lo <= i < hi ==> Index(i, capacity) != Index(hi, capacity)
  {
    forall i | lo <= i < hi ensures Index(i, capacity) != Index(hi, capacity) {
      ModDistinct(i, hi, capacity);
    }
  }

  lemma ApartFromOldest(lo: nat, hi: nat, capacity: nat)
    requires 0 < capacity && hi <= lo + capacity
    ensures forall i :: lo < i < hi ==> Index(i, capacity) != Index(lo, capacity)
  {
    forall i | lo < i < hi ensures Index(i, capacity) != Index(lo, capacity) {
      ModDistinct(lo, i, capacity);
    }
  }

  class Ring<T> {
    const capacity: nat
    const slots: array<Slot<T>>
    var windex: nat
    var rindex: nat
    var size: nat
    var producer: Producer
    var consumer: Consumer
    var allocPending: bool
    var current: T
    ghost var put: seq<T>
    ghost var got: seq<T>

    /** What the producer has put and the consumer not yet taken. */
    ghost function Pending(): seq<T>
      requires |got| <= |put|
      reads this
    {
      put[|got|..]
    }

    ghost function InFlight(): nat
      reads this
    {
      if producer == Advanced then 1 else 0
    }

    ghost function NotGivenBack(): nat
      reads this
    {
      if consumer == Released then 1 else 0
    }

    ghost predicate Valid()
      reads this, slots
    {
      && capacity > 0 && slots.Length == capacity
      && got <= put
      && size + InFlight() == |put| - |got| + NotGivenBack()
      && size <= capacity
      && windex == Index(|put|, capacity) && rindex == Index(|got|, capacity)
      && (producer in {Owning, Allocating, Filled, Advanced} || allocPending ==> size < capacity)
      && (allocPending ==> producer in {Allocating, Stopped})
      && (producer == Filled ==> slots[windex].Held?)
      && (consumer in {Showing, Released} ==> size > 0)
      && (consumer == Showing ==> current == put[|got|])
      && Stored(slots[..], put, Oldest())
    }

    /** The oldest item whose slot must still hold it: the slot of an item shown is the consumer's. */
    ghost function Oldest(): nat
      reads this
    {
      if consumer == Showing then |got| + 1 else |got|
    }

    constructor (capacity: nat, nothing: T)
      requires capacity > 0
      ensures Valid() && this.capacity == capacity && put == got == [] && fresh(slots)
      ensures producer == Waiting && consumer == Idle
    {
      this.capacity, this.slots := capacity, new Slot<T>[capacity](_ => Free);
      windex, rindex, size, producer, consumer := 0, 0, 0, Waiting, Idle;
      allocPending, current, put, got := false, nothing, [], [];
    }

    /** The slot being filled is none that holds an item, shown, following or further behind. */
    lemma Exclusive()
      requires Valid() && (producer in {Owning, Allocating, Filled} || allocPending)
      ensures forall i :: |got| <= i < |put| ==> Index(i, capacity) != windex
      ensures consumer == Showing ==> windex != rindex
      ensures consumer == Showing && size > 1 ==> windex != (rindex + 1) % capacity
    {
      hide Index, Stored;
      Apart(|got|, |put|, capacity);
      NextIndex(|got|, capacity);
      assert Index(|got| + 1, capacity) == (rindex + 1) % capacity;
    }

    // -------------------------------------------------------------- producer

    /** Under the lock: there is space, or the wait goes on. */
    method FindSpace() returns (found: bool)
      requires Valid() && producer == Waiting
      modifies this`producer
      ensures Valid() && found == (size < capacity) && producer == if found then Owning else Waiting
    {
      hide Index, Stored;
      found := size < capacity;
      if found {
        producer := Owning;
      }
    }

    /** The picture buffer has the wrong size: the main thread is asked for a new one. */
    method RequestPicture()
      requires Valid() && producer == Owning
      modifies this`producer, this`allocPending
      ensures Valid() && producer == Allocating && allocPending
    {
      hide Index, Stored;
      producer, allocPending := Allocating, true;
    }

    /** The main thread replaces the picture buffer at the write index; no item is lost by that. */
    method AllocatePicture()
      requires Valid() && allocPending && consumer == Idle
      modifies this`allocPending, slots
      ensures Valid() && !allocPending
      ensures forall k :: 0 <= k < capacity && k != windex ==> slots[k] == old(slots[k])
    {
      hide Index, Stored;
      Exclusive();
      StoredAfterChange(slots[..], put, Oldest(), windex, Free);
      slots[windex] := Free;
      allocPending := false;
      assert slots[..] == old(slots[..])[windex := Free];
    }

    /** Waiting for the main thread is over. */
    method PictureAllocated() returns (done: bool)
      requires Valid() && producer == Allocating
      modifies this`producer
      ensures Valid() && done == !allocPending && producer == if done then Owning else Allocating
    {
      hide Index, Stored;
      done := !allocPending;
      if done {
        producer := Owning;
      }
    }

    /** The queue is being aborted: the producer thread ends. */
    method Abort()
      requires Valid() && producer in {Waiting, Owning, Allocating}
      modifies this`producer
      ensures Valid() && producer == Stopped
    {
      hide Index, Stored;
      producer := Stopped;
    }

    /** Fills the slot at the write index, outside the lock, while the consumer may be showing another. */
    method Fill(item: T)
      requires Valid() && producer == Owning
      modifies this`producer, slots
      ensures Valid() && producer == Filled && slots[windex] == Held(item)
      ensures forall k :: 0 <= k < capacity && k != windex ==> slots[k] == old(slots[k])
      ensures consumer == Showing ==> slots[rindex] == old(slots[rindex])
    {
      hide Index, Stored;
      Exclusive();
      StoredAfterChange(slots[..], put, Oldest(), windex, Held(item));
      slots[windex] := Held(item);
      producer := Filled;
      assert slots[..] == old(slots[..])[windex := Held(item)];
    }

    /** Nothing came of the slot: no overlay, or no subtitle in the packet. */
    method GiveUp()
      requires Valid() && producer in {Owning, Filled}
      modifies this`producer
      ensures Valid() && producer == Waiting
    {
      hide Index, Stored;
      producer := Waiting;
    }

    /** The write index moves on; the item is in the ring but not yet counted. */
    method Advance()
      requires Valid() && producer == Filled
      modifies this`windex, this`producer, this`put
      ensures Valid() && producer == Advanced
      ensures put == old(put) + [slots[old(windex)].item]
    {
      hide Index, Stored;
      NextIndex(|put|, capacity);
      StoredSnoc(slots[..], put, Oldest());
      put := put + [slots[windex].item];
      windex := windex + 1;
      if windex == capacity {
        windex := 0;
      }
      producer := Advanced;
    }

    /** Under the lock: the item counts. */
    method Commit()
      requires Valid() && producer == Advanced
      modifies this`size, this`producer
      ensures Valid() && size == old(size) + 1 && producer == Waiting
    {
      hide Index, Stored;
      size := size + 1;
      producer := Waiting;
    }

    // -------------------------------------------------------------- consumer

    /** The oldest item, if any is counted; from here on its slot belongs to the consumer. */
    method Show() returns (there: bool)
      requires Valid() && consumer == Idle
      modifies this`consumer, this`current
      ensures Valid() && there == (size > 0) && consumer == if there then Showing else Idle
      ensures there ==> Pending() != [] && current == Pending()[0]
    {
      hide Index, Stored;
      there := size > 0;
      if there {
        StoredAt(slots[..], put, |got|, |got|);
        current := slots[rindex].item;
        consumer := Showing;
      }
    }

    /** The item after the one shown, if it is counted. */
    method Following() returns (next: Slot<T>)
      requires Valid() && consumer == Showing
      ensures next == if size > 1 then Held(Pending()[1]) else Free
    {
      hide Index, Stored;
      next := Free;
      if size > 1 {
        StoredAt(slots[..], put, |got| + 1, |got| + 1);
        NextIndex(|got|, capacity);
        next := slots[(rindex + 1) % capacity];
      }
    }

    /** Frees the subpicture shown, while the producer may be filling another slot. */
    method FreeShown()
      requires Valid() && consumer == Showing
      modifies slots
      ensures Valid() && slots[rindex] == Free
      ensures forall k :: 0 <= k < capacity && k != rindex ==> slots[k] == old(slots[k])
      ensures producer == Filled ==> slots[windex] == old(slots[windex])
    {
      hide Index, Stored;
      if producer == Filled {
        Exclusive();
      }
      Behind();
      StoredAfterChange(slots[..], put, |got| + 1, rindex, Free);
      slots[rindex] := Free;
      assert slots[..] == old(slots[..])[rindex := Free];
    }

    /** Items behind the oldest are in other slots. */
    lemma Behind()
      requires Valid() && |got| < |put|
      ensures forall i :: |got| < i < |put| ==> Index(i, capacity) != rindex
    {
      hide Index, Stored;
      ApartFromOldest(|got|, |put|, capacity);
    }

    /** The read index moves on; the space is not yet given back. */
    method Release()
      requires Valid() && consumer == Showing
      modifies this`rindex, this`consumer, this`got
      ensures Valid() && consumer == Released
      ensures got == old(got) + [current]
    {
      hide Index, Stored;
      NextIndex(|got|, capacity);
      got := got + [current];
      rindex := rindex + 1;
      if rindex == capacity {
        rindex := 0;
      }
      consumer := Released;
    }

    /** Under the lock: the space counts again. */
    method GiveBack()
      requires Valid() && consumer == Released
      modifies this`size, this`consumer
      ensures Valid() && size == old(size) - 1 && consumer == Idle
    {
      hide Index, Stored;
      size := size - 1;
      consumer := Idle;
    }

    /** One item dropped under the lock. */
    method DropOne()
      requires Valid() && consumer == Idle && size > 0
      modifies this`rindex, this`size, this`got, slots
      ensures Valid() && size == old(size) - 1 && put[..|got|] == got && |got| == |old(got)| + 1
      ensures producer == Filled ==> slots[windex] == old(slots[windex])
    {
      hide Index, Stored;
      if producer == Filled {
        Exclusive();
      }
      Behind();
      StoredAt(slots[..], put, |got|, |got|);
      StoredAfterChange(slots[..], put, |got| + 1, rindex, Free);
      NextIndex(|got|, capacity);
      got := got + [slots[rindex].item];
      slots[rindex] := Free;
      assert slots[..] == old(slots[..])[rindex := Free];
      rindex := rindex + 1;
      if rindex == capacity {
        rindex := 0;
      }
      size := size - 1;
    }

    /** The subtitle stream has changed: all counted items go; only one in flight can stay. */
    method Drain()
      requires Valid() && consumer == Idle
      modifies this`rindex, this`size, this`got, slots
      ensures Valid() && size == 0 && old(got) <= got && |Pending()| == InFlight()
      ensures producer == Filled ==> slots[windex] == old(slots[windex])
    {
      hide Index, Stored;
      while size > 0
        invariant Valid() && old(got) <= got
        invariant producer == Filled ==> slots[windex] == old(slots[windex])
        decreases size
      {
        DropOne();
      }
    }
  }

  /** The atomic steps; a step whose thread is elsewhere does nothing. */
  datatype Step<T> =
    | FindSpaceStep | RequestStep | AllocateStep | AllocatedStep | FillStep(item: T) | GiveUpStep
    | AdvanceStep | CommitStep | AbortStep
    | ShowStep | FreeStep | ReleaseStep | GiveBackStep | DrainStep

  /** Where the producer is after a step of its own, given the size and whether an allocation is pending. */
  function ProducerAfter<T>(p: Producer, step: Step<T>, size: nat, capacity: nat, pending: bool): Producer {
    match (p, step)
    case (Waiting, FindSpaceStep) => if size < capacity then Owning else Waiting
    case (Owning, RequestStep) => Allocating
    case (Allocating, AllocatedStep) => if pending then Allocating else Owning
    case (Owning, FillStep(_)) => Filled
    case (Owning, GiveUpStep) => Waiting
    case (Filled, GiveUpStep) => Waiting
    case (Filled, AdvanceStep) => Advanced
    case (Advanced, CommitStep) => Waiting
    case (Waiting, AbortStep) => Stopped
    case (Owning, AbortStep) => Stopped
    case (Allocating, AbortStep) => Stopped
    case _ => p
  }

  function ConsumerAfter<T>(c: Consumer, step: Step<T>, size: nat): Consumer {
    match (c, step)
    case (Idle, ShowStep) => if size > 0 then Showing else Idle
    case (Showing, ReleaseStep) => Released
    case (Released, GiveBackStep) => Idle
    case _ => c
  }

  /** A step of the producer, or of the main thread for it. */
  method Produce<T>(ring: Ring<T>, step: Step<T>)
    requires ring.Valid()
    modifies ring, ring.slots
    ensures ring.Valid() && ring.consumer == old(ring.consumer) && ring.got == old(ring.got)
    ensures ring.current == old(ring.current)
    ensures ring.producer
         == ProducerAfter(old(ring.producer), step, old(ring.size), ring.capacity, old(ring.allocPending))
    ensures step.FillStep? && old(ring.producer) == Owning ==> ring.slots[ring.windex] == Held(step.item)
    ensures old(ring.producer) == ring.producer == Filled ==>
              ring.windex == old(ring.windex) && ring.slots[ring.windex] == old(ring.slots[ring.windex])
    ensures ring.put == old(ring.put) + if step.AdvanceStep? && old(ring.producer) == Filled
                                        then [old(ring.slots[ring.windex]).item] else []
    ensures ring.size == old(ring.size) + if step.CommitStep? && old(ring.producer) == Advanced then 1 else 0
    ensures step.AllocateStep? && old(ring.consumer) == Idle ==> !ring.allocPending
  {
    hide Index, Stored;
    match step
    case FindSpaceStep => if ring.producer == Waiting { var _ := ring.FindSpace(); }
    case RequestStep => if ring.producer == Owning { ring.RequestPicture(); }
    case AllocateStep => if ring.allocPending && ring.consumer == Idle { ring.AllocatePicture(); }
    case AllocatedStep => if ring.producer == Allocating { var _ := ring.PictureAllocated(); }
    case FillStep(item) => if ring.producer == Owning { ring.Fill(item); }
    case GiveUpStep => if ring.producer in {Owning, Filled} { ring.GiveUp(); }
    case AdvanceStep => if ring.producer == Filled { ring.Advance(); }
    case CommitStep => if ring.producer == Advanced { ring.Commit(); }
    case AbortStep => if ring.producer in {Waiting, Owning, Allocating} { ring.Abort(); }
    case _ =>
  }

  /** A step of the consumer. */
  method Consume<T>(ring: Ring<T>, step: Step<T>)
    requires ring.Valid() && ByConsumer(step)
    modifies ring`rindex, ring`size, ring`consumer, ring`current, ring`got, ring.slots
    ensures ring.Valid() && old(ring.got) <= ring.got
    ensures ring.consumer == ConsumerAfter(old(ring.consumer), step, old(ring.size))
    ensures ring.producer == Filled ==> ring.slots[ring.windex] == old(ring.slots[ring.windex])
    ensures ring.consumer == Showing ==> |ring.got| < |ring.put| && ring.current == ring.put[|ring.got|]
    ensures step.ReleaseStep? && old(ring.consumer) == Showing ==> ring.got == old(ring.got) + [ring.current]
    ensures !step.ReleaseStep? && !step.DrainStep? ==> ring.got == old(ring.got)
    ensures step.GiveBackStep? && old(ring.consumer) == Released ==> ring.size == old(ring.size) - 1
    ensures step.DrainStep? && old(ring.consumer) == Idle ==> ring.size == 0 && |ring.put| - |ring.got| <= 1
  {
    hide Index, Stored;
    match step
    case ShowStep => if ring.consumer == Idle { var _ := ring.Show(); }
    case FreeStep => if ring.consumer == Showing { ring.FreeShown(); }
    case ReleaseStep => if ring.consumer == Showing { ring.Release(); }
    case GiveBackStep => if ring.consumer == Released { ring.GiveBack(); }
    case DrainStep => if ring.consumer == Idle { ring.Drain(); }
    case _ =>
  }

  predicate ByConsumer<T>(step: Step<T>) {
    step.ShowStep? || step.FreeStep? || step.ReleaseStep? || step.GiveBackStep? || step.DrainStep?
  }

  /** An item is in a slot only if a step has filled it in, or it was there when the run began. */
  ghost predicate Offered<T>(steps: seq<Step<T>>, first: Slot<T>, x: T) {
    first == Held(x) || exists k :: 0 <= k < |steps| && steps[k] == FillStep(x)
  }

  ghost predicate AllOffered<T>(steps: seq<Step<T>>, first: Slot<T>, xs: seq<T>) {
    forall n :: 0 <= n < |xs| ==> Offered(steps, first, xs[n])
  }

  lemma StillOffered<T>(steps: seq<Step<T>>, step: Step<T>, first: Slot<T>, xs: seq<T>)
    requires AllOffered(steps, first, xs)
    ensures AllOffered(steps + [step], first, xs)
    ensures step.FillStep? ==> Offered(steps + [step], first, step.item)
  {
    var all := steps + [step];
    forall n | 0 <= n < |xs| ensures Offered(all, first, xs[n]) {
      if first != Held(xs[n]) {
        var k :| 0 <= k < |steps| && steps[k] == FillStep(xs[n]);
        assert all[k] == FillStep(xs[n]);
      }
    }
    assert all[|steps|] == step;
  }

  /** What has been put since, and what is about to be. */
  ghost function Coming<T>(ring: Ring<T>, from: nat): seq<T>
    requires ring.Valid() && from <= |ring.put|
    reads ring, ring.slots
  {
    ring.put[from..] + (if ring.producer == Filled then [ring.slots[ring.windex].item] else [])
  }

  method Take<T>(ring: Ring<T>, step: Step<T>)
    requires ring.Valid()
    modifies ring, ring.slots
    ensures ring.Valid() && old(ring.put) <= ring.put && old(ring.got) <= ring.got
    ensures ring.producer
         == ProducerAfter(old(ring.producer), step, old(ring.size), ring.capacity, old(ring.allocPending))
    ensures ring.consumer == ConsumerAfter(old(ring.consumer), step, old(ring.size))
    ensures forall from: nat :: from <= |old(ring.put)| ==>
              Coming(ring, from) == old(Coming(ring, from))
              || (step.FillStep? && Coming(ring, from) == old(Coming(ring, from)) + [step.item])
              || (step.GiveUpStep? && Coming(ring, from) == ring.put[from..] == old(ring.put[from..]))
    ensures step.CommitStep? && old(ring.producer) == Advanced ==> ring.size == old(ring.size) + 1
    ensures ring.consumer == Showing ==> |ring.got| < |ring.put| && ring.current == ring.put[|ring.got|]
    ensures step.ReleaseStep? && old(ring.consumer) == Showing ==> ring.got == old(ring.got) + [ring.current]
    ensures step.GiveBackStep? && old(ring.consumer) == Released ==> ring.size == old(ring.size) - 1
    ensures step.DrainStep? && old(ring.consumer) == Idle ==> ring.size == 0 && |ring.put| - |ring.got| <= 1
    ensures !step.ReleaseStep? && !step.DrainStep? ==> ring.got == old(ring.got)
  {
    hide Index, Stored;
    if ByConsumer(step) {
      Consume(ring, step);
    } else {
      Produce(ring, step);
    }
  }

  /**
   Any interleaving from an empty ring: what the consumer took is what the producer put first, in
   order, it was filled in by a step, never more than the capacity is counted, and the two never own the
   same slot.
   */
  method Run<T>(ring: Ring<T>, steps: seq<Step<T>>)
    requires ring.Valid()
    modifies ring, ring.slots
    ensures ring.Valid() && ring.got <= ring.put && ring.size <= ring.capacity
    ensures old(ring.put) <= ring.put && old(ring.got) <= ring.got
    ensures |ring.put| - |ring.got| <= ring.capacity
    ensures AllOffered(steps, if old(ring.producer) == Filled then old(ring.slots[ring.windex]) else Free,
                       ring.put[|old(ring.put)|..])
    ensures ring.producer in {Owning, Allocating, Filled} && ring.consumer == Showing ==> ring.windex != ring.rindex
  {
    hide Index, Stored, AllOffered;
    ghost var first, from := if ring.producer == Filled then ring.slots[ring.windex] else Free, |ring.put|;
    FirstOffer(first, Coming(ring, from));
    for k := 0 to |steps|
      invariant ring.Valid() && old(ring.put) <= ring.put && old(ring.got) <= ring.got
      invariant AllOffered(steps[..k], first, Coming(ring, from))
    {
      ghost var coming := Coming(ring, from);
      StillOffered(steps[..k], steps[k], first, coming);
      assert steps[..k + 1] == steps[..k] + [steps[k]];
      Take(ring, steps[k]);
      OfferedParts(steps[..k + 1], first, coming, steps[k]);
    }
    assert steps[..|steps|] == steps;
    OfferedPrefix(steps, first, ring.put[from..], Coming(ring, from));
    if ring.producer in {Owning, Allocating, Filled} {
      ring.Exclusive();
    }
  }

  lemma FirstOffer<T>(first: Slot<T>, xs: seq<T>)
    requires |xs| <= 1 && (xs != [] ==> first == Held(xs[0]))
    ensures AllOffered([], first, xs)
  {
  }

  lemma OfferedPrefix<T>(steps: seq<Step<T>>, first: Slot<T>, xs: seq<T>, ys: seq<T>)
    requires AllOffered(steps, first, ys) && xs <= ys
    ensures AllOffered(steps, first, xs)
  {
    hide Offered;
  }

  /** What is coming after one step: as much as before, or an item filled in, or without one that came to nothing. */
  lemma OfferedParts<T>(steps: seq<Step<T>>, first: Slot<T>, xs: seq<T>, step: Step<T>)
    requires AllOffered(steps, first, xs) && (step.FillStep? ==> Offered(steps, first, step.item))
    ensures step.FillStep? ==> AllOffered(steps, first, xs + [step.item])
    ensures forall ys :: ys <= xs ==> AllOffered(steps, first, ys)
  {
    hide Offered;
  }
}
