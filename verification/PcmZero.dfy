/**
 The all-zero mute source of internal/mute/pcmzero/source.go: state changes
 read off the frames, delivered through a one-slot channel in which a newer
 event displaces an older one the consumer has not taken yet.
 */
module PcmZero {
  import opened Common
  import opened MuteDebounce

  datatype Event = Event(state: Mute, initial: bool)

  /** What the source is told, in order. */
  datatype Input = Heard(pcm: Pcm) | Reseeded

  function StateOf(pcm: Pcm): Mute {
    if forall i :: 0 <= i < |pcm| ==> pcm[i] == 0 then Muted else Unmuted
  }

  /** The state of the last frame since the last reseed. */
  function LastSeen(inputs: seq<Input>): Option<Mute> {
    if inputs == [] then None
    else match inputs[|inputs|-1]
         case Heard(pcm) => Some(StateOf(pcm))
         case Reseeded => None
  }

  /** The events a stretch of frames calls for: the first state, then every change. */
  function Changes(inputs: seq<Input>): seq<Event> {
    if inputs == [] then []
    else
      var before := inputs[..|inputs|-1];
      match inputs[|inputs|-1]
      case Reseeded => Changes(before)
      case Heard(pcm) =>
        if LastSeen(before) == Some(StateOf(pcm)) then Changes(before)
        else Changes(before) + [Event(StateOf(pcm), LastSeen(before).None?)]
  }

  /** The last event always carries the last frame's state; a frame after a reseed is reported anew. */
  lemma {:induction false} LastChangeIsCurrent(inputs: seq<Input>)
    ensures LastSeen(inputs).Some? ==>
              Changes(inputs) != [] && Changes(inputs)[|Changes(inputs)|-1].state == LastSeen(inputs).value
  {
    if inputs != [] { LastChangeIsCurrent(inputs[..|inputs|-1]); }
  }

  /** Split between the channels of earlier Watches and the present one, the last event is on the present one, if any is. */
  lemma LatestCarries(inputs: seq<Input>, earlier: seq<Event>, emitted: seq<Event>)
    requires earlier + emitted == Changes(inputs) && LastSeen(inputs).Some?
    ensures emitted != [] ==> emitted[|emitted|-1].state == LastSeen(inputs).value
    ensures emitted == [] ==> earlier != []
  {
    LastChangeIsCurrent(inputs);
    assert emitted != [] ==> (earlier + emitted)[|earlier| + |emitted| - 1] == emitted[|emitted|-1];
  }

  /** Only an initial event may repeat the state of the one before it. */
  lemma {:induction false} ChangesAlternate(inputs: seq<Input>)
    ensures var c := Changes(inputs);
      && (c != [] ==> c[0].initial)
      && forall i :: 0 < i < |c| && !c[i].initial ==> c[i].state != c[i - 1].state
  {
    if inputs != [] {
      var before := inputs[..|inputs|-1];
      ChangesAlternate(before);
      LastChangeIsCurrent(before);
    }
  }

  /** All bytes of the frame are zero. */
  predicate ZeroPcm(pcm: Pcm) {
    forall i :: 0 <= i < |pcm| ==> pcm[i] == 0
  }

  /** Input k is news: the first frame, the first after a reseed, or one that differs in silence from the frame before it. */
  predicate IsNews(inputs: seq<Input>, k: nat)
    requires k < |inputs|
  {
    inputs[k].Heard? && (k == 0 || inputs[k - 1].Reseeded? || ZeroPcm(inputs[k].pcm) != ZeroPcm(inputs[k - 1].pcm))
  }

  function CountNews(inputs: seq<Input>): nat {
    if inputs == [] then 0
    else CountNews(inputs[..|inputs|-1]) + if IsNews(inputs, |inputs| - 1) then 1 else 0
  }

  /**
   Exactly the news are emitted, in order: each says whether its frame is
   silent, and whether it is the first since the start or a reseed.
   */
  lemma {:induction false} ChangesExactly(inputs: seq<Input>, k: nat)
    ensures |Changes(inputs)| == CountNews(inputs)
    ensures k < |inputs| && IsNews(inputs, k) ==>
              && CountNews(inputs[..k]) < |Changes(inputs)|
              && Changes(inputs)[CountNews(inputs[..k])]
                 == Event(if ZeroPcm(inputs[k].pcm) then Muted else Unmuted, k == 0 || inputs[k - 1].Reseeded?)
  {
    if inputs != [] {
      var n := |inputs| - 1;
      ChangesExactly(inputs[..n], k);
      if k < n { assert inputs[..n][..k] == inputs[..k]; }
      if n > 0 { assert inputs[..n][n - 1] == inputs[n - 1]; }
    }
  }

  /** The consumer's deliveries are the emissions with some displaced ones left out. */
  ghost predicate Subsequence<T>(a: seq<T>, b: seq<T>) {
    if a == [] then true
    else if b == [] then false
    else if a[|a|-1] == b[|b|-1] && Subsequence(a[..|a|-1], b[..|b|-1]) then true
    else Subsequence(a, b[..|b|-1])
  }

  lemma SubsequenceGrows<T>(a: seq<T>, b: seq<T>, x: T)
    requires Subsequence(a, b)
    ensures Subsequence(a, b + [x]) && Subsequence(a + [x], b + [x])
  {
    assert (b + [x])[..|b|] == b && (a + [x])[..|a|] == a;
  }

  lemma {:induction false} SubsequenceDrops<T>(a: seq<T>, b: seq<T>, x: T)
    requires Subsequence(a + [x], b)
    ensures Subsequence(a, b)
    decreases |b|
  {
    assert (a + [x])[..|a|] == a;
    if a != [] {
      if (a + [x])[|a|] == b[|b|-1] && Subsequence((a + [x])[..|a|], b[..|b|-1]) {
      } else {
        SubsequenceDrops(a, b[..|b|-1], x);
      }
    }
  }

  /** A one-slot channel and what its consumer has received. */
  class Slot {
    var queued: Option<Event>
    var closed: bool
    ghost var received: seq<Event>

    constructor ()
      ensures queued == None && !closed && received == []
    {
      queued, closed, received := None, false, [];
    }

    /** What the consumer will have received once it drains the channel. */
    ghost function Deliveries(): seq<Event>
      reads this
    {
      if queued.Some? then received + [queued.value] else received
    }

    /** The consumer may take the queued event at any moment; `takes` says whether it does now. */
    method Consume(takes: bool)
      modifies this`queued, this`received
      ensures Deliveries() == old(Deliveries())
      ensures queued == if takes then None else old(queued)
    {
      if takes && queued.Some? {
        received := received + [queued.value];
        queued := None;
      }
    }

    /** A non-blocking send. Sending on a closed channel would panic. */
    method TrySend(ev: Event)
      requires !closed
      modifies this`queued
      ensures queued == if old(queued).None? then Some(ev) else old(queued)
    {
      if queued.None? {
        queued := Some(ev);
      }
    }

    /** A non-blocking receive by the source itself. */
    method Displace()
      modifies this`queued
      ensures queued == None
    {
      queued := None;
    }

    /** Displace what is queued and send; the consumer may be quicker, before either operation. */
    method Replace(ev: Event, t1: bool, t2: bool, ghost emitted: seq<Event>)
      requires !closed && Subsequence(Deliveries(), emitted)
      modifies this`queued, this`received
      ensures queued == Some(ev) && Subsequence(received, emitted)
    {
      Consume(t1);
      if queued.Some? {
        SubsequenceDrops(received, emitted, queued.value);
      }
      Displace();
      Consume(t2);
      TrySend(ev);
    }

    /**
     Newest wins: send, or displace the queued event and send.  `emitted` is what
     this channel was sent before, some of it displaced.
     */
    method Send(ev: Event, t0: bool, t1: bool, t2: bool, ghost emitted: seq<Event>)
      requires !closed && Subsequence(Deliveries(), emitted)
      modifies this`queued, this`received
      ensures queued == Some(ev) && Subsequence(Deliveries(), emitted + [ev])
    {
      Consume(t0);
      if queued.None? {
        TrySend(ev);
      } else {
        Replace(ev, t1, t2, emitted);
      }
      SubsequenceGrows(received, emitted, ev);
    }

    method Close()
      requires !closed
      modifies this`closed
      ensures closed
    {
      closed := true;
    }
  }

  class Source {
    var slot: Slot               // the channel of the latest Watch
    var watched: bool            // out != nil: frames are sent to slot
    var closers: set<Slot>       // channels that a cancelled Watch has detached, but not closed yet
    var lastSet: bool
    var last: Mute
    ghost var inputs: seq<Input>     // every frame seen while watched, and every reseed
    ghost var earlier: seq<Event>    // what was emitted on the channels of earlier Watches
    ghost var emitted: seq<Event>    // what was emitted on the present one

    /** The newest emission is what the consumer has, or is about to get. */
    ghost predicate NewestDelivered()
      reads this, slot
    {
      emitted != [] ==>
        slot.Deliveries() != [] && slot.Deliveries()[|slot.Deliveries()|-1] == emitted[|emitted|-1]
    }

    ghost predicate Delivers()
      reads this, slot
    {
      NewestDelivered() && Subsequence(slot.Deliveries(), emitted)
    }

    ghost predicate Tracks()
      reads this
    {
      LastSeen(inputs) == if lastSet then Some(last) else None
    }

    /** Frames never meet a closed channel, and no channel is closed twice. */
    ghost predicate Open()
      reads this, slot, closers
    {
      && (watched ==> slot !in closers && !slot.closed)
      && (forall ch :: ch in closers ==> !ch.closed)
    }

    ghost predicate Valid()
      reads this, slot, closers
    {
      Open() && Tracks() && Delivers() && earlier + emitted == Changes(inputs)
    }

    constructor ()
      ensures Valid() && !watched && inputs == [] && earlier == [] && fresh(slot)
    {
      slot := new Slot();
      watched, closers, lastSet, last := false, {}, false, Unknown;
      inputs, earlier, emitted := [], [], [];
    }

    /** A new channel, unless a Watch is running; the state last seen is kept from one Watch to the next. */
    method Watch() returns (ok: bool)
      requires Valid()
      modifies this`slot, this`watched, this`earlier, this`emitted
      ensures Valid() && watched && ok == !old(watched)
      ensures if ok then fresh(slot) && slot.Deliveries() == [] && emitted == [] && earlier == old(earlier + emitted)
              else slot == old(slot) && emitted == old(emitted) && earlier == old(earlier)
    {
      if watched {
        return false;
      }
      slot := new Slot();
      watched, earlier, emitted := true, earlier + emitted, [];
      return true;
    }

    /** Cancellation, first region: no frame will use the channel again. */
    method Detach()
      requires Valid() && watched
      modifies this`watched, this`closers
      ensures Valid() && !watched && closers == old(closers) + {slot}
    {
      watched := false;
      closers := closers + {slot};
    }

    /** Cancellation, outside the mutex: close the detached channel, once, whatever is watched by now. */
    method CloseOut(ch: Slot)
      requires Valid() && ch in closers
      modifies this`closers, ch`closed
      ensures Valid() && ch.closed && closers == old(closers) - {ch}
    {
      ch.Close();
      closers := closers - {ch};
    }

    method Reseed()
      requires Valid()
      modifies this`lastSet, this`inputs
      ensures Valid() && inputs == old(inputs) + [Reseeded] && emitted == old(emitted)
    {
      lastSet := false;
      inputs := inputs + [Reseeded];
      assert inputs[..|inputs|-1] == old(inputs);
    }

    /** The consumer receives, between frames. */
    method Receive()
      requires Valid()
      modifies slot`queued, slot`received
      ensures Valid() && slot.queued == None && slot.received == old(slot.Deliveries())
    {
      slot.Consume(true);
    }

    /** The part of a frame that decides whether there is anything to say. */
    method Note(pcm: Pcm) returns (ev: Option<Event>)
      requires Tracks()
      modifies this`lastSet, this`last, this`inputs
      ensures Tracks() && inputs == old(inputs) + [Heard(pcm)]
      ensures Changes(inputs) == if ev.Some? then Changes(old(inputs)) + [ev.value] else Changes(old(inputs))
      ensures ev.None? <==> LastSeen(old(inputs)) == Some(StateOf(pcm))
      ensures LastSeen(inputs) == Some(StateOf(pcm))
    {
      var st := Unmuted;
      var zero := AllZero(pcm);
      if zero {
        st := Muted;
      }
      inputs := inputs + [Heard(pcm)];
      assert inputs[..|inputs|-1] == old(inputs);
      var initial := false;
      if !lastSet {
        lastSet := true;
        last := st;
        initial := true;
      } else if st == last {
        return None;
      } else {
        last := st;
      }
      ev := Some(Event(st, initial));
    }

    /** Send what there is to say. */
    method Emit(ev: Option<Event>, t0: bool, t1: bool, t2: bool)
      requires !slot.closed && Delivers()
      modifies this`emitted, slot`queued, slot`received
      ensures Delivers()
      ensures earlier + emitted == old(earlier + emitted) + if ev.Some? then [ev.value] else []
      ensures ev.Some? ==> emitted != []
    {
      if ev.Some? {
        slot.Send(ev.value, t0, t1, t2, emitted);
        emitted := emitted + [ev.value];
      }
    }

    /** A frame on an open channel. */
    method Deliver(pcm: Pcm, t0: bool, t1: bool, t2: bool)
      requires !slot.closed && Tracks() && Delivers() && earlier + emitted == Changes(inputs)
      modifies this`lastSet, this`last, this`inputs, this`emitted, slot`queued, slot`received
      ensures Tracks() && Delivers() && earlier + emitted == Changes(inputs)
      ensures inputs == old(inputs) + [Heard(pcm)] && LastSeen(inputs) == Some(StateOf(pcm))
      ensures emitted == [] ==> LastSeen(old(inputs)) == Some(StateOf(pcm))
    {
      var ev := Note(pcm);
      Emit(ev, t0, t1, t2);
    }

    /**
     One frame, with the consumer free to receive before each of the three
     channel operations.  The consumer ends up with the frame's state; only a
     later Watch may find it has been told nothing yet, when the state is still
     the one an earlier Watch saw last.
     */
    method OnFrame(pcm: Pcm, t0: bool, t1: bool, t2: bool)
      requires Valid()
      modifies this`lastSet, this`last, this`inputs, this`emitted, slot`queued, slot`received
      ensures Valid()
      ensures inputs == if watched then old(inputs) + [Heard(pcm)] else old(inputs)
      ensures watched && emitted != [] ==>
                && slot.Deliveries() != []
                && slot.Deliveries()[|slot.Deliveries()|-1].state
                   == if forall i :: 0 <= i < |pcm| ==> pcm[i] == 0 then Muted else Unmuted
      ensures watched && emitted == [] ==> earlier != [] && LastSeen(old(inputs)) == Some(StateOf(pcm))
    {
      if watched {
        Deliver(pcm, t0, t1, t2);
        LatestCarries(inputs, earlier, emitted);
      }
    }
  }

  method AllZero(pcm: Pcm) returns (zero: bool)
    ensures zero <==> forall i :: 0 <= i < |pcm| ==> pcm[i] == 0
  {
    var i := 0;
    while i < |pcm|
      invariant 0 <= i <= |pcm|
      invariant forall k :: 0 <= k < i ==> pcm[k] == 0
    {
      if pcm[i] != 0 {
        return false;
      }
      i := i + 1;
    }
    return true;
  }
}
