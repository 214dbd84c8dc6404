/** The callback table: either the caller's own functions, any of which may be
    missing, or the tree builder's. */
module Handlers {
  import opened Bytes
  import opened Values
  import opened Decoder
  import opened Zipper
  import opened Capacity
  import opened Memory
  import opened Tree
  import opened Spine
  import opened Dom

  /** What the parser passes to a callback. */
  datatype Signal =
    | SInt(i: int)
    | SStr(s: Slice)
    | SListBegin
    | SListEnd
    | SDictBegin
    | SDictEnd

  datatype Kind = KInt | KStr | KListBegin | KListEnd | KDictBegin | KDictEnd

  function KindOf(e: Event): Kind {
    match e
    case EInt(_) => KInt
    case EStr(_) => KStr
    case EListBegin => KListBegin
    case EListEnd => KListEnd
    case EDictBegin => KDictBegin
    case EDictEnd => KDictEnd
  }

  predicate Readable(sig: Signal, input: array<byte>) {
    sig.SStr? ==> sig.s.buf == input && InBounds(sig.s)
  }

  /** The event a signal stands for. */
  function Meaning(sig: Signal): Event
    requires sig.SStr? ==> InBounds(sig.s)
    reads if sig.SStr? then {sig.s.buf} else {}
  {
    match sig
    case SInt(i) => EInt(i)
    case SStr(s) => EStr(SliceBytes(s))
    case SListBegin => EListBegin
    case SListEnd => EListEnd
    case SDictBegin => EDictBegin
    case SDictEnd => EDictEnd
  }

  /** The events that reach the callbacks actually present. */
  function Filter(evs: seq<Event>, installed: set<Kind>): seq<Event> {
    if evs == [] then []
    else
      var front, last := evs[..|evs|-1], evs[|evs|-1];
      Filter(front, installed) + (if KindOf(last) in installed then [last] else [])
  }

  lemma FilterSnoc(evs: seq<Event>, e: Event, installed: set<Kind>)
    ensures Filter(evs + [e], installed)
         == Filter(evs, installed) + (if KindOf(e) in installed then [e] else [])
  {
    assert (evs + [e])[..|evs|] == evs;
  }

  /** Which function receives which event, kind by kind: each event goes to the
      function of its own kind and to no other. */
  lemma {:induction false} FilterExactly(evs: seq<Event>, installed: set<Kind>)
    ensures EListBegin in Filter(evs, installed) <==> EListBegin in evs && KListBegin in installed
    ensures EListEnd in Filter(evs, installed) <==> EListEnd in evs && KListEnd in installed
    ensures EDictBegin in Filter(evs, installed) <==> EDictBegin in evs && KDictBegin in installed
    ensures EDictEnd in Filter(evs, installed) <==> EDictEnd in evs && KDictEnd in installed
    ensures forall i :: EInt(i) in Filter(evs, installed) <==> EInt(i) in evs && KInt in installed
    ensures forall b :: EStr(b) in Filter(evs, installed) <==> EStr(b) in evs && KStr in installed
    decreases |evs|
  {
    if evs != [] {
      var front, last := evs[..|evs|-1], evs[|evs|-1];
      assert evs == front + [last];
      FilterExactly(front, installed);
    }
  }

  /** The events of `evs` that satisfy `p`, in order. */
  function Select(evs: seq<Event>, p: Event -> bool): seq<Event> {
    if evs == [] then []
    else
      var front, last := evs[..|evs|-1], evs[|evs|-1];
      Select(front, p) + (if p(last) then [last] else [])
  }

  lemma SelectSnoc(evs: seq<Event>, e: Event, p: Event -> bool)
    ensures Select([], p) == []
    ensures Select(evs + [e], p) == Select(evs, p) + (if p(e) then [e] else [])
  {
    assert (evs + [e])[..|evs|] == evs;
  }

  /** With one function present, it receives exactly the events of its kind, in
      order. */
  lemma {:induction false} FilterOne(evs: seq<Event>)
    ensures Filter(evs, {KInt}) == Select(evs, (e: Event) => e.EInt?)
    ensures Filter(evs, {KStr}) == Select(evs, (e: Event) => e.EStr?)
    ensures Filter(evs, {KListBegin}) == Select(evs, (e: Event) => e.EListBegin?)
    ensures Filter(evs, {KListEnd}) == Select(evs, (e: Event) => e.EListEnd?)
    ensures Filter(evs, {KDictBegin}) == Select(evs, (e: Event) => e.EDictBegin?)
    ensures Filter(evs, {KDictEnd}) == Select(evs, (e: Event) => e.EDictEnd?)
    decreases |evs|
  {
    if evs != [] {
      FilterOne(evs[..|evs|-1]);
    }
  }

  /** With all functions present, nothing is left out. */
  lemma {:induction false} FilterAll(evs: seq<Event>)
    ensures Filter(evs, {KInt, KStr, KListBegin, KListEnd, KDictBegin, KDictEnd}) == evs
    decreases |evs|
  {
    if evs != [] {
      FilterAll(evs[..|evs|-1]);
      assert evs == evs[..|evs|-1] + [evs[|evs|-1]];
    }
  }

  lemma RunSnoc(evs: seq<Event>, e: Event)
    requires LegalAll(Start, evs) && Legal(Run(Start, evs), e)
    ensures LegalAll(Start, evs + [e]) && Run(Start, evs + [e]) == Step(Run(Start, evs), e)
  {
    hide LegalAll, Run, Legal, Step;
    RunOne(Run(Start, evs), e);
    RunConcat(Start, evs, [e]);
  }

  /** The answer to the last of the events `log`: what the caller's function says
      if it is present, and "go on" otherwise. */
  ghost function Answer(log: seq<Event>, installed: set<Kind>, answer: seq<Event> -> Status): Status {
    if log != [] && KindOf(log[|log|-1]) in installed then answer(Filter(log, installed)) else Ok
  }

  /** Every event but the last was answered with "go on". */
  ghost predicate GoesOn(log: seq<Event>, installed: set<Kind>, answer: seq<Event> -> Status) {
    forall k :: 0 <= k < |log| ==> Answer(log[..k], installed, answer) == Ok
  }

  lemma GoesOnSnoc(log: seq<Event>, e: Event, installed: set<Kind>, answer: seq<Event> -> Status)
    requires GoesOn(log, installed, answer) && Answer(log, installed, answer) == Ok
    ensures GoesOn(log + [e], installed, answer)
    ensures Answer(log + [e], installed, answer)
         == if KindOf(e) in installed then answer(Filter(log, installed) + [e]) else Ok
  {
    hide Filter;
    FilterSnoc(log, e, installed);
    var all := log + [e];
    forall k | 0 <= k < |all| ensures Answer(all[..k], installed, answer) == Ok {
      assert all[..k] == log[..k];
      assert log[..|log|] == log;
    }
  }

  class Callbacks {
    const dom: DomState?
    const installed: set<Kind>
    const answer: seq<Event> -> Status
    ghost const input: array<byte>

    /** The events the caller's functions have received. */
    var delivered: seq<Event>

    /** All events reported so far, the state they lead to, and the last answer. */
    ghost var log: seq<Event>
    ghost var z: Zip
    ghost var verdict: Status
    ghost var Repr: set<object>

    /** A caller's table: `installed` tells which functions are present, and the
        answer to an event is any function of what was received so far. */
    constructor User(input: array<byte>, installed: set<Kind>, answer: seq<Event> -> Status)
      ensures Valid() && fresh(Repr) && dom == null
      ensures this.input == input && this.installed == installed && this.answer == answer
      ensures verdict == Ok && log == [] && z == Start && delivered == []
    {
      dom := null;
      this.installed := installed;
      this.answer := answer;
      this.input := input;
      delivered := [];
      log, z, verdict := [], Start, Ok;
      Repr := {this};
    }

    /** The tree builder's table. */
    constructor Builder(dom: DomState)
      requires dom.Valid(Start) && dom.alloc.refused == dom.before && dom.alloc.asked == dom.askedBefore
      ensures Valid() && fresh(Repr - {dom, dom.frames, dom.alloc})
      ensures this.dom == dom && input == dom.input
      ensures verdict == Ok && log == [] && z == Start
    {
      RanNone(dom.alloc.answers, dom.alloc.asked, dom.alloc.refused);
      this.dom := dom;
      installed := {};
      answer := _ => Ok;
      input := dom.input;
      delivered := [];
      log, z, verdict := [], Start, Ok;
      Repr := {this, dom, dom.frames, dom.alloc};
    }

    /** Since the start of the parse the builder has asked for what the plan of
        the run says, and it has failed if and only if a request was refused or an
        event met a full container. */
    ghost predicate Tally()
      requires LegalAll(Start, log)
      reads this, dom, if dom != null then {dom.alloc} else {}
    {
      dom != null ==>
        && Ran(dom.alloc.answers, dom.askedBefore, dom.before, RunPlan(Start, log), dom.alloc.asked, dom.alloc.refused)
        && (verdict == Ok || dom.alloc.NeverRefuses() ==> dom.alloc.refused == dom.before)
        && (verdict == Ok <==> dom.alloc.refused == dom.before && FitAll(Start, log))
    }

    /** The builder behind the table is in the state `z`, or holds a partial tree
        once it has failed. */
    ghost predicate DomReady()
      reads this, Repr, input
    {
      dom != null ==>
        && dom in Repr && dom.alloc in Repr && dom.frames in Repr && dom.input == input
        && this !in dom.alloc.live
        && dom.alloc.live - dom.base <= Repr
        && dom.Built() <= Repr
        && dom.alloc.live == dom.base + dom.Built()
        && LowerBorrowed(dom.lower) <= {input}
        && (dom.top.Some? ==>
              && Borrowed(dom.top.value) <= {input} && Owned(dom.top.value) <= Repr
              && LowerOwned(dom.lower) <= Repr)
        && (dom.top.None? ==> dom.lower == [])
        && verdict in {Ok, NoMem}
        && (if verdict == Ok then dom.Valid(z) else dom.Structural({}))
    }

    ghost predicate Valid()
      reads this, Repr, input
    {
      && this in Repr && input !in Repr
      && DomReady()
      && LegalAll(Start, log) && z == Run(Start, log)
      && WellZip(z) && (dom != null ==> dom in Repr && dom.alloc in Repr) && Tally()
      && (dom == null ==>
            && delivered == Filter(log, installed)
            && verdict == Answer(log, installed, answer)
            && GoesOn(log, installed, answer))
    }

    /** What the builder holds between two events: the tree of the state `z`, or
        a partial tree once it has failed. */
    lemma BuilderHolds()
      requires Valid() && dom != null
      ensures dom.Structural({}) && verdict in {Ok, NoMem}
      ensures verdict == Ok ==> dom.Valid(z)
      ensures dom.alloc.live - dom.base <= Repr && dom.alloc !in dom.alloc.live && dom.input == input
      ensures LegalAll(Start, log) && Tally()
    {
      hide DomState.Agrees, WellZip, LegalAll, Run, Filter, GoesOn, Tally;
    }

    /** The caller's function for the event, if there is one. */
    method OfferUser(sig: Signal) returns (st: Status)
      requires this in Repr && dom == null && Readable(sig, input)
      modifies this
      ensures Repr == old(Repr) && verdict == st && DomReady()
      ensures log == old(log) + [Meaning(sig)]
      ensures Legal(old(z), Meaning(sig)) ==> z == Step(old(z), Meaning(sig))
      ensures var got := old(delivered) + [Meaning(sig)];
              if KindOf(Meaning(sig)) in installed then delivered == got && st == answer(got)
              else delivered == old(delivered) && st == Ok
    {
      hide Legal, Step;
      var e := Meaning(sig);
      if KindOf(e) in installed {
        delivered := delivered + [e];
        st := answer(delivered);
      } else {
        st := Ok;
      }
      log := log + [e];
      z := if Legal(z, e) then Step(z, e) else z;
      verdict := st;
    }

    /** Take note of an event the builder has dealt with. */
    ghost method Settle(e: Event, st: Status)
      requires this in Repr && input !in Repr && dom != null && dom in Repr && dom.alloc in Repr && dom.frames in Repr
      requires dom.input == input && Legal(z, e)
      requires st in {Ok, NoMem}
      requires if st == Ok then dom.Valid(Step(z, e)) else dom.Structural({})
      requires input !in dom.alloc.live - dom.base && this !in dom.alloc.live
      modifies this`log, this`z, this`verdict, this`Repr
      ensures this in Repr && input !in Repr && DomReady()
      ensures Repr == old(Repr) + (dom.alloc.live - dom.base)
      ensures log == old(log) + [e] && z == Step(old(z), e) && verdict == st
    {
      hide LowerOwned, LowerBorrowed, Owned, Borrowed, BuildRep, BuildSeparate, LowerAgrees, TopAgrees, Legal, Step;
      dom.KeepTree();
      log, z, verdict := log + [e], Step(z, e), st;
      Repr := Repr + (dom.alloc.live - dom.base);
    }

    /** The tree builder's function for the event. */
    method OfferDom(sig: Signal) returns (st: Status)
      requires this in Repr && input !in Repr && DomReady() && dom != null && verdict == Ok && Readable(sig, input)
      requires WellZip(z) && Legal(z, Meaning(sig)) && |z.stack| <= INTERNAL_MAX_DEPTH
      requires sig.SListBegin? || sig.SDictBegin? ==> |z.stack| < INTERNAL_MAX_DEPTH
      modifies Repr
      ensures this in Repr && input !in Repr && DomReady() && fresh(Repr - old(Repr))
      ensures log == old(log) + [Meaning(sig)]
      ensures z == Step(old(z), Meaning(sig))
      ensures st == verdict
      ensures dom in Repr && dom.alloc in Repr && dom.alloc.Asked(st == Ok)
      ensures dom.alloc.Asks(EventPlan(old(z), old(Meaning(sig))))
      ensures st == Ok <==> dom.alloc.Granted() && Fits(old(z), old(Meaning(sig)))
    {
      hide WellZip, LowerOwned, LowerBorrowed, Owned, Borrowed;
      hide BuildRep, BuildSeparate, LowerAgrees, TopAgrees, Legal, Step;
      ghost var e := Meaning(sig);
      st := Dispatch(sig, z, e);
      Settle(e, st);
    }

    /** One callback of the builder for each kind of event. */
    method Dispatch(sig: Signal, ghost z: Zip, ghost e: Event) returns (st: Status)
      requires dom != null && dom.Valid(z) && Readable(sig, dom.input) && e == Meaning(sig)
      requires WellZip(z) && Legal(z, e) && |z.stack| <= INTERNAL_MAX_DEPTH
      requires sig.SListBegin? || sig.SDictBegin? ==> |z.stack| < INTERNAL_MAX_DEPTH
      modifies dom.Repr()
      ensures st in {Ok, NoMem} && fresh(dom.alloc.live - old(dom.alloc.live))
      ensures if st == Ok then dom.Valid(Step(z, e)) else dom.Structural({})
      ensures dom.alloc.Asked(st == Ok) && (st == Ok <==> dom.alloc.Granted() && Fits(z, e))
      ensures dom.alloc.Asks(EventPlan(z, e))
    {
      hide DomState.Valid, DomState.Structural, WellZip, Deliver, AttachPlan;
      RanNone(dom.alloc.answers, dom.alloc.asked, dom.alloc.refused);
      hide Ran;
      match sig {
        case SInt(i) => st := dom.OnInt(i, z);
        case SStr(s) => st := dom.OnString(s, z);
        case SListBegin => st := dom.OpenContainer(false, z);
        case SListEnd => st := dom.OnEnd(false, z);
        case SDictBegin => st := dom.OpenContainer(true, z);
        case SDictEnd => st := dom.OnEnd(true, z);
      }
    }

    /** Report one event. The answer is the verdict, and the table is in order
        for the next event. */
    method Offer(sig: Signal) returns (st: Status)
      requires Valid() && verdict == Ok && Readable(sig, input)
      requires Legal(z, Meaning(sig)) && |z.stack| <= INTERNAL_MAX_DEPTH
      requires sig.SListBegin? || sig.SDictBegin? ==> |z.stack| < INTERNAL_MAX_DEPTH
      modifies Repr
      ensures Valid() && fresh(Repr - old(Repr))
      ensures log == old(log) + [Meaning(sig)]
      ensures z == Step(old(z), Meaning(sig))
      ensures st == verdict
      ensures dom == null ==>
                var got := old(delivered) + [Meaning(sig)];
                if KindOf(Meaning(sig)) in installed then delivered == got && st == answer(got)
                else delivered == old(delivered) && st == Ok
    {
      hide Filter, WellZip, Run, LegalAll, DomReady, Legal, Step, Meaning, GoesOn, Answer, FitAll, Fits;
      hide RunPlan, EventPlan, Ran;
      ghost var e := Meaning(sig);
      if dom == null {
        GoesOnSnoc(log, e, installed, answer);
      }
      FilterSnoc(log, e, installed);
      StepWell(z, e);
      RunSnoc(log, e);
      FitSnoc(Start, log, e);
      ghost var plan := RunPlan(Start, log);
      ghost var asked1, refused1 := [], 0;
      if dom != null {
        RunPlanSnoc(Start, log, e);
        asked1, refused1 := dom.alloc.asked, dom.alloc.refused;
      }
      if dom != null {
        st := OfferDom(sig);
        RanThen(dom.alloc.answers, dom.askedBefore, dom.before, plan, asked1, refused1, EventPlan(old(z), e),
                dom.alloc.asked, dom.alloc.refused);
      } else {
        st := OfferUser(sig);
      }
    }
  }
}
