/**
 The first-wins multiplexer of internal/mute/auto.go: one goroutine per source,
 sharing `locked` under a mutex, forwarding to one output channel.
 */
module AutoMute {
  import opened Common
  import opened MuteDebounce

  datatype Event = Event(state: Mute, initial: bool)

  /** An event on the output, tagged with the goroutine that sent it. */
  datatype Tagged = Tagged(src: nat, ev: Event)

  /** One forwarding goroutine: what it has received, what it is about to send. */
  datatype Forwarder = Forwarder(got: seq<Event>, sending: Option<Event>, gone: bool, cancelled: bool)

  /** `locked` is the winner's name, empty until a transition arrives. */
  datatype State = State(locked: string, subs: seq<Forwarder>, out: seq<Tagged>)

  datatype Step =
    | Receive(i: nat, ev: Event)
    | Send(i: nat)
    | Quit(i: nat)              // the parent context ends while sending
    | SourceCloses(i: nat)

  function Init(names: seq<string>): State {
    State("", seq(|names|, _ => Forwarder([], None, false, false)), [])
  }

  predicate Enabled(s: State, step: Step) {
    && step.i < |s.subs| && !s.subs[step.i].gone
    && match step
       case Receive(i, _) => s.subs[i].sending.None?
       case Send(i) => s.subs[i].sending.Some?
       case Quit(i) => s.subs[i].sending.Some?
       case SourceCloses(i) => s.subs[i].sending.None?
  }

  /** cancelLosersLocked. */
  function CancelLosers(names: seq<string>, subs: seq<Forwarder>, winner: string): seq<Forwarder>
    requires |names| == |subs|
  {
    seq(|subs|, i requires 0 <= i < |subs| =>
      if names[i] != winner then subs[i].(cancelled := true) else subs[i])
  }

  /** The region under the mutex: initial events pass, the first transition locks, losers are dropped. */
  function Decide(names: seq<string>, s: State, i: nat, ev: Event): State
    requires |names| == |s.subs| && i < |s.subs|
  {
    var s1 := s.(subs := s.subs[i := s.subs[i].(got := s.subs[i].got + [ev])]);
    if ev.initial then s1.(subs := s1.subs[i := s1.subs[i].(sending := Some(ev))])
    else
      var s2 := if s1.locked == "" then s1.(locked := names[i], subs := CancelLosers(names, s1.subs, names[i])) else s1;
      if s2.locked == names[i] then s2.(subs := s2.subs[i := s2.subs[i].(sending := Some(ev))]) else s2
  }

  function Apply(names: seq<string>, s: State, step: Step): State
    requires |names| == |s.subs| && Enabled(s, step)
  {
    match step
    case Receive(i, ev) => Decide(names, s, i, ev)
    case Send(i) =>
      s.(subs := s.subs[i := s.subs[i].(sending := None)], out := s.out + [Tagged(i, s.subs[i].sending.value)])
    case Quit(i) => s.(subs := s.subs[i := s.subs[i].(sending := None, gone := true)])
    case SourceCloses(i) => s.(subs := s.subs[i := s.subs[i].(gone := true)])
  }

  predicate Reaches(names: seq<string>, s: State, steps: seq<Step>, s': State)
    requires |names| == |s.subs|
    decreases |steps|
  {
    if steps == [] then s' == s
    else Enabled(s, steps[0]) && Reaches(names, Apply(names, s, steps[0]), steps[1..], s')
  }

  ghost predicate Reachable(names: seq<string>, s: State) {
    exists steps :: Reaches(names, Init(names), steps, s)
  }

  /** The transitions among a source's own events. */
  function Transitions(evs: seq<Event>): seq<Event> {
    if evs == [] then []
    else Transitions(evs[..|evs|-1]) + if evs[|evs|-1].initial then [] else [evs[|evs|-1]]
  }

  /** The transitions on the output that came from goroutine i. */
  function Forwarded(out: seq<Tagged>, i: nat): seq<Event> {
    if out == [] then []
    else Forwarded(out[..|out|-1], i) +
         if out[|out|-1].src == i && !out[|out|-1].ev.initial then [out[|out|-1].ev] else []
  }

  /** Names that tell the sources apart, and from "nobody". */
  predicate GoodNames(names: seq<string>) {
    && (forall i :: 0 <= i < |names| ==> names[i] != "")
    && (forall i, j :: 0 <= i < j < |names| ==> names[i] != names[j])
  }

  function Pending(f: Forwarder): seq<Event> {
    if f.sending.Some? && !f.sending.value.initial then [f.sending.value] else []
  }

  ghost predicate SubOk(names: seq<string>, s: State, i: nat)
    requires |names| == |s.subs| && i < |names|
  {
    var f := s.subs[i];
    && (s.locked == "" ==> Transitions(f.got) == [] && !f.cancelled)
    && (if s.locked == names[i] then
          && !f.cancelled
          && Forwarded(s.out, i) + Pending(f) <= Transitions(f.got)
          && (!f.gone ==> Forwarded(s.out, i) + Pending(f) == Transitions(f.got))
        else Forwarded(s.out, i) == [] && Pending(f) == [])
  }

  ghost predicate Inv(names: seq<string>, s: State) {
    && |names| == |s.subs| && GoodNames(names)
    && (forall i :: 0 <= i < |names| ==> SubOk(names, s, i))
  }

  lemma InitInv(names: seq<string>)
    requires GoodNames(names)
    ensures Inv(names, Init(names))
  {
  }

  lemma TransitionsAppend(evs: seq<Event>, ev: Event)
    ensures Transitions(evs + [ev]) == Transitions(evs) + if ev.initial then [] else [ev]
  {
    assert (evs + [ev])[..|evs|] == evs;
  }

  lemma ForwardedAppend(out: seq<Tagged>, t: Tagged, i: nat)
    ensures Forwarded(out + [t], i) == Forwarded(out, i) + if t.src == i && !t.ev.initial then [t.ev] else []
  {
    assert (out + [t])[..|out|] == out;
  }

  /** What the region leaves of each goroutine. */
  lemma Decided(names: seq<string>, s: State, i: nat, ev: Event, j: nat)
    requires |names| == |s.subs| && i < |s.subs| && j < |s.subs|
    requires GoodNames(names) && s.subs[i].sending.None?
    ensures var s' := Decide(names, s, i, ev);
      && |s'.subs| == |s.subs| && s'.out == s.out
      && s'.locked == (if !ev.initial && s.locked == "" then names[i] else s.locked)
      && s'.subs[j].gone == s.subs[j].gone
      && s'.subs[j].cancelled == (s.subs[j].cancelled || (!ev.initial && s.locked == "" && j != i))
      && s'.subs[j].got == (if j == i then s.subs[i].got + [ev] else s.subs[j].got)
      && s'.subs[j].sending == (if j == i && (ev.initial || s'.locked == names[i]) then Some(ev) else s.subs[j].sending)
  {
    assert j < i ==> names[j] != names[i];
    assert i < j ==> names[i] != names[j];
  }

  lemma ReceiveKeepsInv(names: seq<string>, s: State, i: nat, ev: Event)
    requires Inv(names, s) && Enabled(s, Receive(i, ev))
    ensures Inv(names, Decide(names, s, i, ev))
  {
    forall j | 0 <= j < |names|
      ensures |Decide(names, s, i, ev).subs| == |names| && SubOk(names, Decide(names, s, i, ev), j)
    {
      ReceiveKeepsSub(names, s, i, ev, j);
    }
  }

  lemma ReceiveKeepsSub(names: seq<string>, s: State, i: nat, ev: Event, j: nat)
    requires Inv(names, s) && Enabled(s, Receive(i, ev)) && j < |names|
    ensures |Decide(names, s, i, ev).subs| == |names| && SubOk(names, Decide(names, s, i, ev), j)
  {
    Decided(names, s, i, ev, j);
    assert SubOk(names, s, j);
    if j == i { TransitionsAppend(s.subs[i].got, ev); }
  }

  lemma SendKeepsInv(names: seq<string>, s: State, i: nat)
    requires Inv(names, s) && Enabled(s, Send(i))
    ensures Inv(names, Apply(names, s, Send(i)))
  {
    var s' := Apply(names, s, Send(i));
    forall j | 0 <= j < |names| ensures SubOk(names, s', j) {
      assert SubOk(names, s, j);
      ForwardedAppend(s.out, Tagged(i, s.subs[i].sending.value), j);
    }
  }

  lemma StepKeepsInv(names: seq<string>, s: State, step: Step)
    requires Inv(names, s) && Enabled(s, step)
    ensures Inv(names, Apply(names, s, step))
  {
    match step
    case Receive(i, ev) => ReceiveKeepsInv(names, s, i, ev);
    case Send(i) => SendKeepsInv(names, s, i);
    case _ =>
      forall j | 0 <= j < |names| ensures SubOk(names, Apply(names, s, step), j) {
        assert SubOk(names, s, j);
      }
  }

  lemma {:induction false} RunKeepsInv(names: seq<string>, s: State, steps: seq<Step>, s': State)
    requires Inv(names, s) && Reaches(names, s, steps, s')
    ensures Inv(names, s')
    decreases |steps|
  {
    if steps != [] {
      StepKeepsInv(names, s, steps[0]);
      RunKeepsInv(names, Apply(names, s, steps[0]), steps[1..], s');
    }
  }

  /** Two sources have both got a transition through. */
  ghost predicate Mixed(s: State) {
    exists i: nat, j: nat :: i != j && Forwarded(s.out, i) != [] && Forwarded(s.out, j) != []
  }

  /**
   Every transition on the output comes from the winner, and the winner's are a
   prefix of its own from the first on; the winner is never cancelled.
   */
  lemma WinnerTakesAll(names: seq<string>, s: State, i: nat)
    requires GoodNames(names) && Reachable(names, s) && i < |names|
    ensures |s.subs| == |names|
    ensures Forwarded(s.out, i) != [] ==> s.locked == names[i]
    ensures s.locked == names[i] ==> !s.subs[i].cancelled && Forwarded(s.out, i) <= Transitions(s.subs[i].got)
    ensures s.locked == names[i] && !s.subs[i].gone && s.subs[i].sending.None? ==>
              Forwarded(s.out, i) == Transitions(s.subs[i].got)
  {
    var steps :| Reaches(names, Init(names), steps, s);
    InitInv(names);
    RunKeepsInv(names, Init(names), steps, s);
    assert SubOk(names, s, i);
    assert Forwarded(s.out, i) <= Forwarded(s.out, i) + Pending(s.subs[i]);
  }

  // ----------------------------------------------- every event, initial ones too

  /** Everything on the output that came from goroutine i. */
  function SentBy(out: seq<Tagged>, i: nat): seq<Event> {
    if out == [] then []
    else SentBy(out[..|out|-1], i) + if out[|out|-1].src == i then [out[|out|-1].ev] else []
  }

  function Initials(evs: seq<Event>): seq<Event> {
    if evs == [] then []
    else Initials(evs[..|evs|-1]) + if evs[|evs|-1].initial then [evs[|evs|-1]] else []
  }

  function InHand(f: Forwarder): seq<Event> {
    if f.sending.Some? then [f.sending.value] else []
  }

  /** What a source may put on the output: all of its events if it is the winner, else the initial ones. */
  function Due(names: seq<string>, s: State, i: nat): seq<Event>
    requires |names| == |s.subs| && i < |names|
  {
    if s.locked == names[i] then s.subs[i].got else Initials(s.subs[i].got)
  }

  ghost predicate SubDelivers(names: seq<string>, s: State, i: nat)
    requires |names| == |s.subs| && i < |names|
  {
    var f := s.subs[i];
    && SentBy(s.out, i) + InHand(f) <= Due(names, s, i)
    && (!f.gone ==> SentBy(s.out, i) + InHand(f) == Due(names, s, i))
    && (s.locked == "" ==> Initials(f.got) == f.got)
    && (s.locked != "" && s.locked != names[i] ==> f.cancelled)
  }

  ghost predicate Delivers(names: seq<string>, s: State) {
    && |names| == |s.subs| && GoodNames(names)
    && (forall i :: 0 <= i < |names| ==> SubDelivers(names, s, i))
  }

  lemma InitialsAppend(evs: seq<Event>, ev: Event)
    ensures Initials(evs + [ev]) == Initials(evs) + if ev.initial then [ev] else []
  {
    assert (evs + [ev])[..|evs|] == evs;
  }

  lemma SentByAppend(out: seq<Tagged>, t: Tagged, i: nat)
    ensures SentBy(out + [t], i) == SentBy(out, i) + if t.src == i then [t.ev] else []
  {
    assert (out + [t])[..|out|] == out;
  }

  lemma ReceiveDelivers(names: seq<string>, s: State, i: nat, ev: Event, j: nat)
    requires Delivers(names, s) && Enabled(s, Receive(i, ev)) && j < |names|
    ensures |Decide(names, s, i, ev).subs| == |names| && SubDelivers(names, Decide(names, s, i, ev), j)
  {
    Decided(names, s, i, ev, j);
    assert SubDelivers(names, s, j) && names[i] != "";
    assert j < i ==> names[j] != names[i];
    assert i < j ==> names[i] != names[j];
    if j == i { InitialsAppend(s.subs[i].got, ev); }
  }

  lemma StepDelivers(names: seq<string>, s: State, step: Step, j: nat)
    requires Delivers(names, s) && Enabled(s, step) && j < |names|
    ensures |Apply(names, s, step).subs| == |names| && SubDelivers(names, Apply(names, s, step), j)
  {
    match step
    case Receive(i, ev) => ReceiveDelivers(names, s, i, ev, j);
    case Send(i) => SendDelivers(names, s, i, j);
    case _ => assert SubDelivers(names, s, j);
  }

  lemma SendDelivers(names: seq<string>, s: State, i: nat, j: nat)
    requires Delivers(names, s) && Enabled(s, Send(i)) && j < |names|
    ensures |Apply(names, s, Send(i)).subs| == |names| && SubDelivers(names, Apply(names, s, Send(i)), j)
  {
    var s' := Apply(names, s, Send(i));
    assert SubDelivers(names, s, j);
    HandedOn(s.out, Tagged(i, s.subs[i].sending.value), j, s.subs[j]);
    assert Due(names, s', j) == Due(names, s, j);
    assert SentBy(s'.out, j) + InHand(s'.subs[j]) == SentBy(s.out, j) + InHand(s.subs[j]);
  }

  /** Sending moves the event from the hand to the output. */
  lemma HandedOn(out: seq<Tagged>, t: Tagged, j: nat, f: Forwarder)
    requires j == t.src ==> f.sending == Some(t.ev)
    ensures SentBy(out + [t], j) + (if j == t.src then [] else InHand(f)) == SentBy(out, j) + InHand(f)
  {
    SentByAppend(out, t, j);
  }

  lemma {:induction false} RunDelivers(names: seq<string>, s: State, steps: seq<Step>, s': State)
    requires Delivers(names, s) && Reaches(names, s, steps, s')
    ensures Delivers(names, s')
    decreases |steps|
  {
    if steps != [] {
      var s1 := Apply(names, s, steps[0]);
      forall j | 0 <= j < |names| ensures |s1.subs| == |names| && SubDelivers(names, s1, j) {
        StepDelivers(names, s, steps[0], j);
      }
      RunDelivers(names, s1, steps[1..], s');
    }
  }

  /**
   The output carries every event of the winner and every initial event of the
   others, each source's in its own order, up to the one in hand and unless its
   goroutine has gone; and the losers, all of them, are cancelled.
   */
  lemma EverythingDueIsSent(names: seq<string>, s: State, i: nat)
    requires GoodNames(names) && Reachable(names, s) && i < |names|
    ensures |s.subs| == |names|
    ensures SentBy(s.out, i) <= Due(names, s, i)
    ensures !s.subs[i].gone && s.subs[i].sending.None? ==> SentBy(s.out, i) == Due(names, s, i)
    ensures s.locked == "" ==> Initials(s.subs[i].got) == s.subs[i].got
    ensures s.locked != "" && s.locked != names[i] ==> s.subs[i].cancelled
  {
    var steps :| Reaches(names, Init(names), steps, s);
    assert Delivers(names, Init(names));
    RunDelivers(names, Init(names), steps, s);
    assert SubDelivers(names, s, i);
    assert SentBy(s.out, i) <= SentBy(s.out, i) + InHand(s.subs[i]);
  }

  /** The first transition decides, and the decision stands. */
  lemma FirstTransitionWins(names: seq<string>, s: State, i: nat, ev: Event)
    requires |names| == |s.subs| && GoodNames(names) && Enabled(s, Receive(i, ev)) && !ev.initial
    ensures Apply(names, s, Receive(i, ev)).locked == if s.locked == "" then names[i] else s.locked
  {
    Decided(names, s, i, ev, i);
  }

  lemma {:induction false} WinnerStays(names: seq<string>, s: State, steps: seq<Step>, s': State)
    requires |names| == |s.subs| && GoodNames(names) && s.locked != "" && Reaches(names, s, steps, s')
    ensures s'.locked == s.locked
    decreases |steps|
  {
    if steps != [] {
      if steps[0].Receive? { Decided(names, s, steps[0].i, steps[0].ev, steps[0].i); }
      WinnerStays(names, Apply(names, s, steps[0]), steps[1..], s');
    }
  }

  /** A goroutine that has gone, because its source closed or the context ended, sends nothing more. */
  lemma {:induction false} GoneIsSilent(names: seq<string>, s: State, steps: seq<Step>, s': State, i: nat)
    requires |names| == |s.subs| && GoodNames(names) && i < |names| && s.subs[i].gone && Reaches(names, s, steps, s')
    ensures |s'.subs| == |names| && s'.subs[i].gone && SentBy(s'.out, i) == SentBy(s.out, i)
    decreases |steps|
  {
    if steps != [] {
      var step, s1 := steps[0], Apply(names, s, steps[0]);
      if step.Receive? { Decided(names, s, step.i, step.ev, i); }
      if step.Send? { SentByAppend(s.out, s1.out[|s.out|], i); }
      GoneIsSilent(names, s1, steps[1..], s', i);
    }
  }

  /** A source's goroutine goes when its source closes, and when the context ends while it sends. */
  lemma ClosedIsGone(names: seq<string>, s: State, step: Step)
    requires |names| == |s.subs| && Enabled(s, step) && (step.Quit? || step.SourceCloses?)
    ensures Apply(names, s, step).subs[step.i].gone
  {
  }

  lemma {:induction false} OnlySourcesForward(names: seq<string>, s: State, steps: seq<Step>, s': State)
    requires |names| == |s.subs| && Reaches(names, s, steps, s')
    requires forall i: nat :: i >= |names| ==> Forwarded(s.out, i) == []
    ensures forall i: nat :: i >= |names| ==> Forwarded(s'.out, i) == []
    decreases |steps|
  {
    if steps != [] {
      var s1 := Apply(names, s, steps[0]);
      forall i: nat | i >= |names| ensures Forwarded(s1.out, i) == [] {
        if steps[0].Send? { ForwardedAppend(s.out, s1.out[|s.out|], i); }
      }
      OnlySourcesForward(names, s1, steps[1..], s');
    }
  }

  /** A run of two transitions from different sources. */
  function TwoTransitions(i: nat, j: nat): seq<Step> {
    [Receive(i, Event(Muted, false)), Send(i), Receive(j, Event(Muted, false)), Send(j)]
  }

  /** Names that collide, or an empty name, let two sources through. */
  lemma BadNamesMix(names: seq<string>, i: nat, j: nat) returns (s: State)
    requires i < |names| && j < |names| && i != j
    requires names[i] == "" || names[i] == names[j]
    ensures Reachable(names, s) && Mixed(s)
  {
    var ev := Event(Muted, false);
    var s0 := Init(names);
    var s1 := Apply(names, s0, Receive(i, ev));
    var s2 := Apply(names, s1, Send(i));
    var s3 := Apply(names, s2, Receive(j, ev));
    s := Apply(names, s3, Send(j));
    RunOfFour(names, i, j, s1, s2, s3, s);
    assert s.out == [Tagged(i, ev), Tagged(j, ev)];
    ForwardedAppend([], Tagged(i, ev), i);
    ForwardedAppend([Tagged(i, ev)], Tagged(j, ev), i);
    ForwardedAppend([Tagged(i, ev)], Tagged(j, ev), j);
    assert [Tagged(i, ev)] + [Tagged(j, ev)] == s.out && [] + [Tagged(i, ev)] == [Tagged(i, ev)];
  }

  lemma RunOfFour(names: seq<string>, i: nat, j: nat, s1: State, s2: State, s3: State, s4: State)
    requires var r := TwoTransitions(i, j); var s0 := Init(names);
      && Enabled(s0, r[0]) && s1 == Apply(names, s0, r[0])
      && Enabled(s1, r[1]) && s2 == Apply(names, s1, r[1])
      && Enabled(s2, r[2]) && s3 == Apply(names, s2, r[2])
      && Enabled(s3, r[3]) && s4 == Apply(names, s3, r[3])
    ensures Reaches(names, Init(names), TwoTransitions(i, j), s4)
  {
    var r := TwoTransitions(i, j);
    assert r[1..][1..] == r[2..] && r[2..][1..] == r[3..] && r[3..][1..] == [];
    assert Reaches(names, s3, r[3..], s4);
    assert Reaches(names, s2, r[2..], s4);
    assert Reaches(names, s1, r[1..], s4);
  }

  /**
   With at least two sources, the output stays with one source in every run
   exactly when the names are non-empty and distinct.
   */
  lemma OneSourceIffGoodNames(names: seq<string>)
    requires |names| >= 2
    ensures (forall s :: Reachable(names, s) ==> !Mixed(s)) <==> GoodNames(names)
  {
    if GoodNames(names) {
      forall s | Reachable(names, s) ensures !Mixed(s) {
        if i: nat, j: nat :| i != j && Forwarded(s.out, i) != [] && Forwarded(s.out, j) != [] {
          var steps :| Reaches(names, Init(names), steps, s);
          OnlySourcesForward(names, Init(names), steps, s);
          WinnerTakesAll(names, s, i);
          WinnerTakesAll(names, s, j);
        }
      }
    } else if i :| 0 <= i < |names| && names[i] == "" {
      var s := BadNamesMix(names, i, if i == 0 then 1 else 0);
    } else {
      var i, j :| 0 <= i < j < |names| && names[i] == names[j];
      var s := BadNamesMix(names, i, j);
    }
  }
}
