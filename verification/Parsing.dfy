/** The two public parsers: streaming with the caller's callbacks, and building a
    value tree. */
module Parsing {
  import opened Bytes
  import opened Values
  import opened Decoder
  import opened Grammar
  import opened Zipper
  import opened Faults
  import opened Capacity
  import opened Spelling
  import opened Memory
  import opened Tree
  import opened Builders
  import opened Dom
  import opened Handlers
  import opened Sax

  /** `bencode_parse_sax` on the `size` bytes from `start`, with a table that has
      seen nothing yet. */
  method ParseSax(input: array<byte>, start: nat, size: nat, cb: Callbacks, maxDepth: nat)
    returns (st: Status, consumed: nat)
    requires start + size <= input.Length <= SIZE_MAX && cb.input == input && cb.Valid()
    requires cb.log == [] && cb.verdict == Ok && cb.z == Start
    modifies cb.Repr
    ensures cb.Valid() && fresh(cb.Repr - old(cb.Repr))
    ensures Follows(Decode(input[start..start+size], maxDepth).path, [], cb.log, cb.verdict, st, consumed)
    ensures consumed <= size
    ensures st == Ok ==> cb.z == Deliver(Start, Decode(input[start..start+size], maxDepth).val)
  {
    hide ValueAt, Follows, Callbacks.Valid, Deliver;
    if size == 0 {
      EmptyInput(input[start..start+size], maxDepth);
      FollowsStop(Truncated, 0, []);
      return Truncated, 0;
    }
    var effective := if maxDepth == 0 then DEFAULT_MAX_DEPTH else maxDepth;
    if effective > INTERNAL_MAX_DEPTH {
      effective := INTERNAL_MAX_DEPTH;
    }
    ghost var text := input[start..start+size];
    var s := new Parser(input, start, size, cb, effective);
    st := s.ParseValue();
    assert s.src == text == input[start..start+size];
    FollowsStatus(Decode(text, maxDepth).path, [], cb.log, cb.verdict, st, s.p);
    consumed := s.p;
  }

  lemma EmptyInput(s: Bytes, maxDepth: nat)
    requires s == []
    ensures Decode(s, maxDepth) == Out(Stop(Truncated, 0), VInt(0))
  {
  }

  // ---- The caller's callbacks ----

  /** The first event of `evs` that is not answered with "go on". */
  ghost function FirstStop(evs: seq<Event>, installed: set<Kind>, answer: seq<Event> -> Status, k: nat): (r: nat)
    requires k <= |evs|
    ensures k <= r <= |evs|
    ensures r < |evs| ==> Answer(evs[..r+1], installed, answer) != Ok
    ensures forall i {:trigger evs[..i+1]} :: k <= i < r ==> Answer(evs[..i+1], installed, answer) == Ok
    decreases |evs| - k
  {
    if k == |evs| then k
    else if Answer(evs[..k+1], installed, answer) != Ok then k
    else FirstStop(evs, installed, answer, k + 1)
  }

  lemma {:induction false} FirstStopIs(evs: seq<Event>, installed: set<Kind>, answer: seq<Event> -> Status,
                                       k: nat, i: nat)
    requires k <= i <= |evs|
    requires i < |evs| ==> Answer(evs[..i+1], installed, answer) != Ok
    requires forall j {:trigger evs[..j+1]} :: k <= j < i ==> Answer(evs[..j+1], installed, answer) == Ok
    ensures FirstStop(evs, installed, answer, k) == i
    decreases i - k
  {
    hide Answer;
    if k < i {
      assert Answer(evs[..k+1], installed, answer) == Ok;
      FirstStopIs(evs, installed, answer, k + 1, i);
    }
  }

  /** Where the run stopped is where the first such answer was given. */
  lemma StopUnique(evs: seq<Event>, log: seq<Event>, installed: set<Kind>, answer: seq<Event> -> Status)
    requires |log| <= |evs| && log == evs[..|log|] && GoesOn(log, installed, answer)
    ensures Answer(log, installed, answer) != Ok && log != [] ==> FirstStop(evs, installed, answer, 0) == |log| - 1
    ensures Answer(log, installed, answer) == Ok && |log| == |evs| ==> FirstStop(evs, installed, answer, 0) == |evs|
  {
    hide Answer;
    forall j {:trigger evs[..j+1]} | 0 <= j < |log| - 1
      ensures Answer(evs[..j+1], installed, answer) == Ok
    {
      assert evs[..j+1] == log[..j+1];
    }
    if log != [] && Answer(log, installed, answer) != Ok {
      var i := |log| - 1;
      assert evs[..i+1] == log;
      FirstStopIs(evs, installed, answer, 0, i);
    } else if |log| == |evs| {
      if log != [] {
        var i := |log| - 1;
        assert evs[..i+1] == log;
      }
      FirstStopIs(evs, installed, answer, 0, |evs|);
    }
  }

  /** Streaming with the caller's table, start to finish. The functions present
      receive exactly the events of the uninterrupted run, up to and including
      the first one not answered with "go on"; that answer is then the status and
      the cursor at that event the consumed count. If every function present goes
      on each time, it makes no difference which are present. */
  method ParseWith(input: array<byte>, start: nat, size: nat, installed: set<Kind>,
                   answer: seq<Event> -> Status, maxDepth: nat)
    returns (st: Status, consumed: nat, delivered: seq<Event>)
    requires start + size <= input.Length <= SIZE_MAX
    ensures var path := Decode(input[start..start+size], maxDepth).path;
            var evs := Events(path.trace);
            var k := FirstStop(evs, installed, answer, 0);
            if k == |evs| then
              st == path.st && consumed == path.pos && delivered == Filter(evs, installed)
            else
              && st == Answer(evs[..k+1], installed, answer)
              && consumed == path.trace[k].at
              && delivered == Filter(evs[..k+1], installed)
    ensures var evs := Events(Decode(input[start..start+size], maxDepth).path.trace);
            var k := FirstStop(evs, installed, answer, 0);
            LegalAll(Start, if k == |evs| then evs else evs[..k+1])
    ensures var path := Decode(input[start..start+size], maxDepth).path;
            GoesThrough(Events(path.trace), installed, answer) ==>
              st == path.st && consumed == path.pos && delivered == Filter(Events(path.trace), installed)
    ensures forall j {:trigger delivered[..j]} :: 0 < j < |delivered| ==> answer(delivered[..j]) == Ok
    ensures var path := Decode(input[start..start+size], maxDepth).path;
            if delivered == [] || answer(delivered) == Ok then st == path.st && consumed == path.pos
            else st == answer(delivered)
    ensures var r := Decode(input[start..start+size], maxDepth);
            r.path.st == Ok && (forall got :: answer(got) == Ok) ==>
              && st == Ok && consumed == r.path.pos
              && (installed == {KInt} ==> delivered == Select(Flatten(r.val), (e: Event) => e.EInt?))
              && (installed == {KStr} ==> delivered == Select(Flatten(r.val), (e: Event) => e.EStr?))
              && (installed == {KListBegin} ==> delivered == Select(Flatten(r.val), (e: Event) => e.EListBegin?))
              && (installed == {KListEnd} ==> delivered == Select(Flatten(r.val), (e: Event) => e.EListEnd?))
              && (installed == {KDictBegin} ==> delivered == Select(Flatten(r.val), (e: Event) => e.EDictBegin?))
              && (installed == {KDictEnd} ==> delivered == Select(Flatten(r.val), (e: Event) => e.EDictEnd?))
              && (installed == {KInt, KStr, KListBegin, KListEnd, KDictBegin, KDictEnd} ==> delivered == Flatten(r.val))
  {
    hide ValueAt, Answer, Filter, GoesOn, LegalAll;
    var cb := new Callbacks.User(input, installed, answer);
    ghost var path := Decode(input[start..start+size], maxDepth).path;
    st, consumed := ParseSax(input, start, size, cb, maxDepth);
    delivered := cb.delivered;
    ghost var evs := Events(path.trace);
    LogIsPrefix(path, cb.log, cb.verdict, st, consumed);
    StopUnique(evs, cb.log, installed, answer);
    DeliveredInTurn(cb.log, installed, answer);
    NoAnswerYet(installed, answer);
    RunsThrough(evs, installed, answer);
    hide FirstStop, Flatten, KindOf, Select;
    FilterOne(evs);
    FilterAll(evs);
    if path.st == Ok {
      AcceptedEvents(input[start..start+size], maxDepth);
    }
  }

  /** The caller's function said "go on" each time but the last, and what it said
      last is the answer to the run so far. */
  lemma {:induction false} DeliveredInTurn(log: seq<Event>, installed: set<Kind>, answer: seq<Event> -> Status)
    requires GoesOn(log, installed, answer)
    ensures var got := Filter(log, installed);
            && (forall j {:trigger got[..j]} :: 0 < j < |got| ==> answer(got[..j]) == Ok)
            && (if got == [] || answer(got) == Ok then Answer(log, installed, answer) == Ok
                else Answer(log, installed, answer) == answer(got))
    decreases |log|
  {
    if log != [] {
      var front, last := log[..|log|-1], log[|log|-1];
      var had, got := Filter(front, installed), Filter(log, installed);
      assert Answer(log[..|log|-1], installed, answer) == Ok;
      assert forall k :: 0 <= k < |front| ==> front[..k] == log[..k];
      DeliveredInTurn(front, installed, answer);
      assert had[..|had|] == had && had + [] == had;
      forall j | 0 < j < |got| ensures answer(got[..j]) == Ok {
        if j <= |had| {
          assert got[..j] == had[..j];
        }
      }
    }
  }

  lemma NoAnswerYet(installed: set<Kind>, answer: seq<Event> -> Status)
    ensures Answer([], installed, answer) == Ok
  {
  }

  lemma LogIsPrefix(path: Path, log: seq<Event>, verdict: Status, st: Status, p: nat)
    requires Follows(path, [], log, verdict, st, p)
    ensures |log| <= |path.trace| && log == Events(path.trace)[..|log|]
    ensures verdict == Ok ==> |log| == |path.trace| && log == Events(path.trace)
    ensures verdict != Ok ==> log != [] && p == path.trace[|log|-1].at && st == verdict
  {
    if verdict != Ok {
      var k := |log|;
      assert Events(path.trace[..k]) == Events(path.trace)[..k];
    }
  }

  /** Every function present goes on each time it is called. */
  ghost predicate GoesThrough(evs: seq<Event>, installed: set<Kind>, answer: seq<Event> -> Status) {
    forall i {:trigger evs[..i+1]} :: 0 <= i < |evs| && KindOf(evs[i]) in installed ==>
      answer(Filter(evs[..i+1], installed)) == Ok
  }

  /** Then and only then the run goes through to its end. */
  lemma RunsThrough(evs: seq<Event>, installed: set<Kind>, answer: seq<Event> -> Status)
    ensures FirstStop(evs, installed, answer, 0) == |evs| <==> GoesThrough(evs, installed, answer)
  {
    hide Filter;
    forall i {:trigger evs[..i+1]} | 0 <= i < |evs|
      ensures Answer(evs[..i+1], installed, answer)
           == if KindOf(evs[i]) in installed then answer(Filter(evs[..i+1], installed)) else Ok
    {
      assert evs[..i+1][i] == evs[i];
    }
  }

  /** On success the events are those of the value, well bracketed and with each
      key before its value, and running them gives the value back. */
  lemma AcceptedEvents(s: Bytes, maxDepth: nat)
    requires Decode(s, maxDepth).path.st == Ok
    ensures var r := Decode(s, maxDepth);
            && Events(r.path.trace) == Flatten(r.val)
            && LegalAll(Start, Flatten(r.val))
            && Run(Start, Flatten(r.val)) == Zip(Some(r.val), [])
  {
    hide ValueAt, Flatten, LegalAll, Run, WellFormed;
    ValueSound(s, 0, Clamp(maxDepth));
    RunFlatten(Start, Decode(s, maxDepth).val);
  }

  // ---- The tree builder ----

  /** No event of the run on `s` meets a full container. */
  ghost predicate Roomy(s: Bytes, maxDepth: nat) {
    Goes(Start, Events(Decode(s, maxDepth).path.trace))
  }

  lemma RoomyIs(s: Bytes, maxDepth: nat)
    requires LegalAll(Start, Events(Decode(s, maxDepth).path.trace))
    ensures Roomy(s, maxDepth) <==> FitAll(Start, Events(Decode(s, maxDepth).path.trace))
  {
    hide FitAll, LegalAll, ValueAt;
  }

  /** Nor does one that begins with the encoding of a value that could be built,
      even if it is nested too deeply to be read. */
  lemma EncodingRoomy(v: Value, rest: Bytes, maxDepth: nat)
    requires WellFormed(v) && Compact(v)
    ensures Roomy(Encode(v) + rest, maxDepth)
  {
    hide ValueAt, LegalAll, FitAll, Run, Flatten, WellFormed, Compact, Outcome;
    var s := Encode(v) + rest;
    var evs, all := Events(Decode(s, maxDepth).path.trace), Flatten(v);
    RunSpells(s, maxDepth);
    BeginsEncoding(v, rest, evs, Clamp(maxDepth));
    FlattenFits(Start, v);
    FitPrefix(Start, all, |evs|);
  }

  /** When it can be read, it meets a full container if and only if the value is
      too wide. */
  lemma RoomyExactly(v: Value, rest: Bytes, maxDepth: nat)
    requires WellFormed(v) && Nesting(v) <= Clamp(maxDepth)
    ensures Roomy(Encode(v) + rest, maxDepth) <==> Compact(v)
  {
    hide ValueAt, LegalAll, FitAll, Run, Flatten, WellFormed, Compact, Encode, Nesting;
    EncodeThenDecode(v, rest, maxDepth);
    if Compact(v) {
      EncodingRoomy(v, rest, maxDepth);
    }
    if Roomy(Encode(v) + rest, maxDepth) {
      FitsOnlyCompact(Start, v);
    }
  }

  /** A list of 2^60 + 1 zeros is well formed and its text is accepted, but no tree
      can be built for it: the size guard, not the allocator, refuses. */
  lemma TooWide(rest: Bytes, maxDepth: nat)
    ensures var v := VList(seq(MAX_ITEMS + 1, _ => VInt(0)));
            && WellFormed(v) && Decode(Encode(v) + rest, maxDepth).path.st == Ok
            && !Roomy(Encode(v) + rest, maxDepth)
  {
    hide ValueAt, Encode, Roomy;
    var vs := seq(MAX_ITEMS + 1, _ => VInt(0));
    NoNesting(vs);
    EncodeThenDecode(VList(vs), rest, maxDepth);
    RoomyExactly(VList(vs), rest, maxDepth);
  }

  lemma {:induction false} NoNesting(vs: seq<Value>)
    requires forall i :: 0 <= i < |vs| ==> vs[i].VInt?
    ensures NestingAll(vs) == 0
    decreases |vs|
  {
    if vs != [] {
      NoNesting(vs[1..]);
    }
  }

  /** No input up to 2^59 bytes fills a container. */
  lemma SmallInputsAreRoomy(s: Bytes, maxDepth: nat)
    requires |s| <= MAX_ENTRIES
    ensures Roomy(s, maxDepth)
  {
    hide ValueAt, LegalAll, FitAll, Run, At, Spell, Admissible, Stops, Outcome;
    var evs := Events(Decode(s, maxDepth).path.trace);
    RunSpells(s, maxDepth);
    SpellLength(evs);
    AtInside(s, Spell(evs));
    ShortRunFits(Start, 0, evs);
  }

  lemma AtInside(s: Bytes, b: Bytes)
    ensures At(s, 0, b) ==> |b| <= |s|
  {
  }

  lemma NeverNoMem(s: Bytes, maxDepth: nat)
    ensures Decode(s, maxDepth).path.st != NoMem
  {
    hide ValueAt, LegalAll, Run;
    if Decode(s, maxDepth).path.st != Ok {
      CursorMeaning(s, 0, Clamp(maxDepth));
    }
  }

  /** What the builder's verdict says about the whole run. */
  lemma VerdictOnRun(s: Bytes, maxDepth: nat, log: seq<Event>, verdict: Status, st: Status, p: nat)
    requires Follows(Decode(s, maxDepth).path, [], log, verdict, st, p) && verdict in {Ok, NoMem}
    requires LegalAll(Start, log)
    ensures verdict == Ok ==> st != NoMem && (FitAll(Start, log) ==> Roomy(s, maxDepth))
    ensures verdict != Ok ==> st == NoMem && (!FitAll(Start, log) ==> !Roomy(s, maxDepth))
  {
    hide ValueAt, LegalAll, FitAll;
    NeverNoMem(s, maxDepth);
    var path := Decode(s, maxDepth).path;
    LogIsPrefix(path, log, verdict, st, p);
    if Roomy(s, maxDepth) {
      FitPrefix(Start, Events(path.trace), |log|);
    }
  }

  /** What the builder has asked for when it is done or has failed is what the
      plan of the whole run says. */
  lemma PlanOnRun(a: Allocator, asked0: seq<nat>, refused0: nat, evs: seq<Event>, log: seq<Event>)
    requires LegalAll(Start, evs) && LegalAll(Start, log) && log <= evs
    requires Ran(a.answers, asked0, refused0, RunPlan(Start, log), a.asked, a.refused)
    requires log == evs || !(a.refused == refused0 && FitAll(Start, log))
    ensures Ran(a.answers, asked0, refused0, RunPlan(Start, evs), a.asked, a.refused) && refused0 <= a.refused
  {
    hide LegalAll, FitAll, Run, RunPlan, AllGranted, Served;
    var rest := evs[|log|..];
    assert evs == log + rest;
    LegalSplit(Start, log, rest);
    RunPlanConcat(Start, log, rest);
    if log != evs && FitAll(Start, log) {
      RanStop(a.answers, asked0, refused0, RunPlan(Start, log), a.asked, a.refused, RunPlan(Run(Start, log), rest));
    }
  }

  /** The parse proper: the builder ends with the decoded value as its tree, or
      with a partial tree when the status is not "ok". */
  method BuildTree(input: array<byte>, start: nat, size: nat, maxDepth: nat, a: Allocator)
    returns (st: Status, consumed: nat, state: DomState)
    requires a.Valid() && start + size <= input.Length <= SIZE_MAX
    modifies a
    ensures fresh(state) && fresh(state.frames) && state.alloc == a && state.base == old(a.live)
    ensures a.Asked(st != NoMem) && (st == NoMem <==> !a.Granted() || !Roomy(input[start..start+size], maxDepth))
    ensures var evs := Events(Decode(input[start..start+size], maxDepth).path.trace);
            LegalAll(Start, evs) && a.Asks(RunPlan(Start, evs))
    ensures state.Structural({}) && state.input == input
    ensures consumed <= size && fresh(a.live - old(a.live))
    ensures var path := Decode(input[start..start+size], maxDepth).path;
            st != NoMem ==> st == path.st && consumed == path.pos
    ensures st == Ok ==>
              && state.lower == [] && state.top.Some?
              && Den(state.top.value) == Decode(input[start..start+size], maxDepth).val
  {
    hide ValueAt, Callbacks.Valid, DomState.Structural, LegalAll, Run, FitAll, Roomy, RunPlan, Ran;
    RunSpells(input[start..start+size], maxDepth);
    state := new DomState(a, input);
    var cb := new Callbacks.Builder(state);
    st, consumed := ParseSax(input, start, size, cb, maxDepth);
    cb.BuilderHolds();
    FollowsStatus(Decode(input[start..start+size], maxDepth).path, [], cb.log, cb.verdict, st, consumed);
    VerdictOnRun(input[start..start+size], maxDepth, cb.log, cb.verdict, st, consumed);
    LogIsPrefix(Decode(input[start..start+size], maxDepth).path, cb.log, cb.verdict, st, consumed);
    ghost var evs := Events(Decode(input[start..start+size], maxDepth).path.trace);
    PlanOnRun(a, state.askedBefore, state.before, evs, cb.log);
    if st == Ok {
      RootOf(state, Decode(input[start..start+size], maxDepth).val);
    }
  }

  lemma RootOf(state: DomState, v: Value)
    requires state.Valid(Deliver(Start, v))
    ensures state.lower == [] && state.top.Some? && Den(state.top.value) == v
  {
  }

  /** `bencode_parse`: the tree of the decoded value on success, and nothing at
      all otherwise: no output and no block left over. */
  method Parse(input: array<byte>, start: nat, size: nat, maxDepth: nat, allowTrailing: bool, a: Allocator)
    returns (st: Status, out: Node?, consumed: nat, ghost t: Option<Shape>)
    requires a.Valid() && start + size <= input.Length <= SIZE_MAX
    modifies a
    ensures a.Valid()
    ensures var path := Decode(input[start..start+size], maxDepth).path;
            st != NoMem ==>
              && consumed == path.pos
              && st == if path.st == Ok && !allowTrailing && path.pos != size then UnexpectedByte else path.st
    ensures a.Asked(st != NoMem) && (st == NoMem <==> !a.Granted() || !Roomy(input[start..start+size], maxDepth))
    ensures a.Granted() && size <= MAX_ENTRIES ==> st != NoMem
    ensures var evs := Events(Decode(input[start..start+size], maxDepth).path.trace);
            && LegalAll(Start, evs) && a.Asks(RunPlan(Start, evs))
            && (st == NoMem <==> !AllGranted(a.answers, old(a.calls), RunPlan(Start, evs)) || !FitAll(Start, evs))
    ensures consumed <= size
    ensures st != Ok ==> out == null && a.live == old(a.live)
    ensures st == Ok ==>
              && Built(a, out, t, Decode(input[start..start+size], maxDepth).val)
              && Borrowed(t.value) <= {input}
              && fresh(Owned(t.value)) && a.live == old(a.live) + Owned(t.value)
              && Owned(t.value) !! old(a.live)
  {
    hide ValueAt, Rep, Owned, Borrowed, Separate, Roomy, LegalAll, RunPlan, Ran, FitAll;
    if size <= MAX_ENTRIES {
      SmallInputsAreRoomy(input[start..start+size], maxDepth);
    }
    var state;
    st, consumed, state := BuildTree(input, start, size, maxDepth, a);
    ghost var evs := Events(Decode(input[start..start+size], maxDepth).path.trace);
    a.Counted(RunPlan(Start, evs));
    assert Roomy(input[start..start+size], maxDepth) <==> FitAll(Start, evs) by {
      RoomyIs(input[start..start+size], maxDepth);
    }
    if st == Ok && !allowTrailing && consumed != size {
      st := UnexpectedByte;
    }
    if st != Ok {
      state.Abandon();
      return st, null, consumed, None;
    }
    return st, state.root, consumed, state.top;
  }
}
