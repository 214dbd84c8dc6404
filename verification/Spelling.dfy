/** Which inputs lead to which runs. A run is determined by the text it has read:
    the tokens of its events, one after the other, and the token it stopped at.
    Everything said about a run can so be said about the input. */
module Spelling {
  import opened Bytes
  import opened Decimal
  import opened Values
  import opened Decoder
  import opened Grammar
  import opened Zipper
  import opened Finality
  import opened Faults
  import opened Offsets
  import opened Diagnostics

  // ---- The text of an event sequence ----

  /** The text that the event stands for. */
  function Token(e: Event): Bytes {
    match e
    case EInt(i) => Encode(VInt(i))
    case EStr(b) => EncodeStr(b)
    case EListBegin => [CH_L]
    case EDictBegin => [CH_D]
    case EListEnd => [CH_E]
    case EDictEnd => [CH_E]
  }

  function Spell(evs: seq<Event>): Bytes {
    if evs == [] then [] else Token(evs[0]) + Spell(evs[1..])
  }

  /** The events of a run that has read exactly their text from `t` on. */
  function Marks(evs: seq<Event>, t: nat): (trace: seq<Mark>)
    ensures |trace| == |evs|
  {
    if evs == [] then []
    else [Mark(evs[0], t + |Token(evs[0])|)] + Marks(evs[1..], t + |Token(evs[0])|)
  }

  lemma {:induction false} MarksSpell(evs: seq<Event>, t: nat)
    ensures Events(Marks(evs, t)) == evs && LastAt(Marks(evs, t), t) == t + |Spell(evs)|
    decreases |evs|
  {
    hide Token;
    if evs != [] {
      MarksSpell(evs[1..], t + |Token(evs[0])|);
    }
  }

  /** Every event takes at least one byte. */
  lemma {:induction false} SpellLength(evs: seq<Event>)
    ensures |evs| <= |Spell(evs)|
    decreases |evs|
  {
    if evs != [] {
      assert |Token(evs[0])| >= 1;
      SpellLength(evs[1..]);
    }
  }

  /** The event can be printed and read: 64-bit integers, lengths that fit. */
  predicate Printable(e: Event) {
    match e
    case EInt(i) => INT64_MIN <= i <= INT64_MAX
    case EStr(b) => |b| <= SIZE_MAX
    case _ => true
  }

  predicate Begins(e: Event) {
    e == EListBegin || e == EDictBegin
  }

  /** The events can all be read, one after the other, within the depth limit. */
  predicate Admissible(z: Zip, evs: seq<Event>, limit: nat)
    decreases |evs|
  {
    evs == [] ||
    (&& Legal(z, evs[0]) && Printable(evs[0]) && (Begins(evs[0]) ==> |z.stack| < limit)
     && Admissible(Step(z, evs[0]), evs[1..], limit))
  }

  lemma {:induction false} AdmissibleLegal(z: Zip, evs: seq<Event>, limit: nat)
    requires Admissible(z, evs, limit)
    ensures LegalAll(z, evs)
    decreases |evs|
  {
    hide Legal, Step;
    if evs != [] {
      AdmissibleLegal(Step(z, evs[0]), evs[1..], limit);
    }
  }

  // ---- One token, both ways ----

  /** What is read as an event is the event's text. */
  lemma ScanSpells(s: Bytes, t: nat, z: Zip, limit: nat)
    requires t <= |s| && Scan(s, t, z, limit).st == Ok
    ensures var f := Scan(s, t, z, limit);
            && |f.trace| == 1 && f.pos == f.trace[0].at <= |s|
            && Printable(f.trace[0].ev) && (Begins(f.trace[0].ev) ==> |z.stack| < limit)
            && At(s, t, Token(f.trace[0].ev)) && f.pos == t + |Token(f.trace[0].ev)|
  {
    hide IntAt, StringAt, Less, LastKey, At, Encode, EncodeStr;
    if s[t] == CH_I && !AwaitsKey(z) {
      IntSound(s, t);
    } else if IsDigit(s[t]) {
      StringSound(s, t);
    } else {
      AtHead(s, t, s[t]);
    }
  }

  /** The text of an event that may come next is read as that event. */
  lemma ScanReads(s: Bytes, t: nat, z: Zip, limit: nat, e: Event)
    requires Legal(z, e) && Printable(e) && (Begins(e) ==> |z.stack| < limit) && At(s, t, Token(e))
    ensures t <= |s|
    ensures Scan(s, t, z, limit) == Path(Ok, t + |Token(e)|, [Mark(e, t + |Token(e)|)])
  {
    hide IntAt, StringAt, Less, LastKey, At, Encode, EncodeStr;
    match e
    case EInt(i) => IntComplete(s, t, i);
    case EStr(b) =>
      StringComplete(s, t, b);
      if AwaitsKey(z) {
        KeyComplete(s, t, b, LastKey(Top(z)));
      }
    case EListBegin => AtHead(s, t, CH_L);
    case EDictBegin => AtHead(s, t, CH_D);
    case EListEnd => AtHead(s, t, CH_E);
    case EDictEnd => AtHead(s, t, CH_E);
  }

  // ---- Whole runs, both ways ----

  /** A run, failed or not, has read exactly the text of its events. */
  lemma {:induction false} ScannedSpells(s: Bytes, p: nat, z: Zip, limit: nat, trace: seq<Mark>)
    requires p <= |s| && Scanned(s, p, z, limit, trace)
    ensures Admissible(z, Events(trace), limit)
    ensures At(s, p, Spell(Events(trace))) && trace == Marks(Events(trace), p)
    decreases |trace|
  {
    hide Scan, Legal, Step, Token, At;
    if trace == [] {
      AtNothing(s, p);
    } else {
      var m, evs := trace[0], Events(trace);
      ScanSpells(s, p, z, limit);
      ScannedSpells(s, m.at, Step(z, m.ev), limit, trace[1..]);
      assert evs[1..] == Events(trace[1..]);
      AtSplit(s, p, Token(m.ev), Spell(evs[1..]));
    }
  }

  lemma AtNothing(s: Bytes, p: nat)
    requires p <= |s|
    ensures At(s, p, [])
  {
  }

  /** Where admissible events are spelled, the run begins with them. */
  lemma {:induction false} ScannedFollows(s: Bytes, p: nat, z: Zip, limit: nat, trace: seq<Mark>, evs: seq<Event>)
    requires Scanned(s, p, z, limit, trace) && LegalAll(z, Events(trace))
    requires Stops(s, LastAt(trace, p), Run(z, Events(trace)), limit)
    requires Admissible(z, evs, limit) && LegalAll(z, evs) && At(s, p, Spell(evs))
    ensures |evs| <= |trace| && trace[..|evs|] == Marks(evs, p)
    ensures Scanned(s, p + |Spell(evs)|, Run(z, evs), limit, trace[|evs|..])
    decreases |evs|
  {
    hide Scan, Scanned, Legal, Step, Token, At, LegalAll, Run, Admissible, Spell, Marks, Stops, Events;
    if evs == [] {
      NoText(z, p);
      assert trace[0..] == trace;
    } else {
      FollowsOneEvent(s, p, z, limit, trace, evs);
      var m := trace[0];
      ScannedFollows(s, m.at, Step(z, m.ev), limit, trace[1..], evs[1..]);
      FirstAndRest(trace, |evs|);
    }
  }

  lemma NoText(z: Zip, p: nat)
    ensures Spell([]) == [] && Marks([], p) == [] && Run(z, []) == z
  {
  }

  lemma FirstAndRest(trace: seq<Mark>, n: nat)
    requires 0 < n <= |trace|
    ensures trace[n..] == trace[1..][n-1..] && trace[..n] == [trace[0]] + trace[1..][..n-1]
  {
  }

  lemma FollowsOneEvent(s: Bytes, p: nat, z: Zip, limit: nat, trace: seq<Mark>, evs: seq<Event>)
    requires Scanned(s, p, z, limit, trace) && LegalAll(z, Events(trace))
    requires Stops(s, LastAt(trace, p), Run(z, Events(trace)), limit)
    requires evs != [] && Admissible(z, evs, limit) && LegalAll(z, evs) && At(s, p, Spell(evs))
    ensures trace != [] && trace[0] == Mark(evs[0], p + |Token(evs[0])|) && Legal(z, evs[0])
    ensures var m, z', tail, rest := trace[0], Step(z, evs[0]), trace[1..], evs[1..];
            && Scanned(s, m.at, z', limit, tail) && LegalAll(z', Events(tail))
            && Stops(s, LastAt(tail, m.at), Run(z', Events(tail)), limit)
            && Admissible(z', rest, limit) && LegalAll(z', rest) && At(s, m.at, Spell(rest))
            && Run(z, evs) == Run(z', rest) && p + |Spell(evs)| == m.at + |Spell(rest)|
            && Marks(evs, p) == [m] + Marks(rest, m.at)
  {
    hide Scan, Scanned, Legal, Step, Token, At, LegalAll, Run, Admissible, Spell, Marks, Stops;
    TextTail(s, p, z, limit, evs);
    FollowsHead(s, p, z, limit, trace, evs[0]);
    TailStops(s, p, z, limit, trace);
  }

  lemma TextTail(s: Bytes, p: nat, z: Zip, limit: nat, evs: seq<Event>)
    requires evs != [] && Admissible(z, evs, limit) && LegalAll(z, evs) && At(s, p, Spell(evs))
    ensures var e, rest, q := evs[0], evs[1..], p + |Token(evs[0])|;
            && Legal(z, e) && Printable(e) && (Begins(e) ==> |z.stack| < limit)
            && Admissible(Step(z, e), rest, limit) && LegalAll(Step(z, e), rest)
            && At(s, p, Token(e)) && At(s, q, Spell(rest))
            && Run(z, evs) == Run(Step(z, e), rest) && |Spell(evs)| == |Token(e)| + |Spell(rest)|
            && Marks(evs, p) == [Mark(e, q)] + Marks(rest, q)
  {
    hide Legal, Step, Token, At;
    AtSplit(s, p, Token(evs[0]), Spell(evs[1..]));
  }

  lemma FollowsHead(s: Bytes, p: nat, z: Zip, limit: nat, trace: seq<Mark>, e: Event)
    requires Scanned(s, p, z, limit, trace) && LegalAll(z, Events(trace))
    requires Stops(s, LastAt(trace, p), Run(z, Events(trace)), limit)
    requires Legal(z, e) && Printable(e) && (Begins(e) ==> |z.stack| < limit) && At(s, p, Token(e))
    ensures trace != [] && trace[0] == Mark(e, p + |Token(e)|)
    ensures Scanned(s, trace[0].at, Step(z, e), limit, trace[1..])
  {
    hide Scan, Legal, Step, Token, At;
    ScanReads(s, p, z, limit, e);
    if trace == [] {
      NothingAfterEnd(z, e);
      assert false;
    }
  }

  /** The rest of a run ends where the run ends. */
  lemma TailStops(s: Bytes, p: nat, z: Zip, limit: nat, trace: seq<Mark>)
    requires trace != [] && LegalAll(z, Events(trace)) && Stops(s, LastAt(trace, p), Run(z, Events(trace)), limit)
    ensures var m, tail := trace[0], trace[1..];
            && Legal(z, m.ev) && LegalAll(Step(z, m.ev), Events(tail))
            && Stops(s, LastAt(tail, m.at), Run(Step(z, m.ev), Events(tail)), limit)
  {
    hide Stops, Legal, Step;
    assert Events(trace)[1..] == Events(trace[1..]);
  }

  /** The run is over: the value is complete, or the next token is an error. */
  predicate Stops(s: Bytes, t: nat, z: Zip, limit: nat) {
    t <= |s| && (Finished(z) || Scan(s, t, z, limit).st != Ok)
  }

  // ---- The main statements ----

  /** The events `evs` can be read within the limit, the input begins with their
      text, and there the run is over. */
  ghost predicate Leads(s: Bytes, evs: seq<Event>, limit: nat) {
    && Admissible(Start, evs, limit) && LegalAll(Start, evs)
    && At(s, 0, Spell(evs)) && Stops(s, |Spell(evs)|, Run(Start, evs), limit)
  }

  /** What that run amounts to. */
  ghost function Outcome(s: Bytes, evs: seq<Event>, limit: nat): Path
    requires Leads(s, evs, limit)
  {
    var t, z := |Spell(evs)|, Run(Start, evs);
    var f := if Finished(z) then Stop(Ok, t) else Scan(s, t, z, limit);
    Path(f.st, f.pos, Marks(evs, 0))
  }

  /** Every run, failed ones included, is determined by the input in this way; in
      particular the bytes before the failing token are exactly the text of the
      events. */
  lemma RunSpells(s: Bytes, maxDepth: nat)
    ensures var path := Decode(s, maxDepth).path;
            Leads(s, Events(path.trace), Clamp(maxDepth)) && path == Outcome(s, Events(path.trace), Clamp(maxDepth))
  {
    hide ValueAt, Scan, Scanned, Admissible, LegalAll, Run, At, Spell, Marks;
    var path := Decode(s, maxDepth).path;
    ValueReads(s, 0, Clamp(maxDepth), Start);
    ScannedSpells(s, 0, Start, Clamp(maxDepth), path.trace);
    MarksSpell(Events(path.trace), 0);
  }

  /** Conversely, whatever events the text of the input leads to are the events of
      the run. */
  lemma RunFollows(s: Bytes, maxDepth: nat, evs: seq<Event>)
    requires Leads(s, evs, Clamp(maxDepth))
    ensures Decode(s, maxDepth).path == Outcome(s, evs, Clamp(maxDepth))
  {
    hide ValueAt, Scan, Scanned, Admissible, LegalAll, Run, At, Spell, Marks;
    var limit, path := Clamp(maxDepth), Decode(s, maxDepth).path;
    RunSpells(s, maxDepth);
    ValueReads(s, 0, limit, Start);
    MarksSpell(Events(path.trace), 0);
    ScannedFollows(s, 0, Start, limit, path.trace, evs);
    if |evs| < |path.trace| {
      NotOver(s, |Spell(evs)|, Run(Start, evs), limit, path.trace[|evs|..]);
    }
    assert path.trace[..|evs|] == path.trace;
    MarksSpell(evs, 0);
  }

  lemma NotOver(s: Bytes, t: nat, z: Zip, limit: nat, trace: seq<Mark>)
    requires Scanned(s, t, z, limit, trace) && trace != []
    ensures !Stops(s, t, z, limit)
  {
    hide Scan, Legal;
    if Finished(z) {
      NothingAfterEnd(z, trace[0].ev);
    }
  }

  /** The events of a run are `evs` if and only if the input begins with their
      text and is over there: one and only one event sequence does that. */
  lemma RunExactly(s: Bytes, maxDepth: nat, evs: seq<Event>)
    ensures Events(Decode(s, maxDepth).path.trace) == evs <==> Leads(s, evs, Clamp(maxDepth))
    ensures Leads(s, evs, Clamp(maxDepth)) ==> Decode(s, maxDepth).path == Outcome(s, evs, Clamp(maxDepth))
  {
    hide ValueAt, Leads, Scan, Run;
    RunSpells(s, maxDepth);
    if Leads(s, evs, Clamp(maxDepth)) {
      RunFollows(s, maxDepth, evs);
      MarksSpell(evs, 0);
    }
  }

  lemma {:induction false} AdmissibleDeeper(z: Zip, evs: seq<Event>, m: nat, n: nat)
    requires Admissible(z, evs, m) && m <= n
    ensures Admissible(z, evs, n)
    decreases |evs|
  {
    hide Legal, Step;
    if evs != [] {
      AdmissibleDeeper(Step(z, evs[0]), evs[1..], m, n);
    }
  }

  /** What can be read of an encoding, under any limit, is the beginning of the
      value's events. */
  lemma BeginsEncoding(v: Value, rest: Bytes, evs: seq<Event>, limit: nat)
    requires WellFormed(v) && Admissible(Start, evs, limit) && LegalAll(Start, evs)
    requires At(Encode(v) + rest, 0, Spell(evs))
    ensures |evs| <= |Flatten(v)| && evs == Flatten(v)[..|evs|]
  {
    hide ValueAt, Scan, Scanned, Admissible, LegalAll, Run, Spell, Marks, At, Encode, Flatten, WellFormed, Nesting;
    var s := Encode(v) + rest;
    var room := Nesting(v) + limit;
    AtSelf(Encode(v), rest);
    ValueComplete(s, 0, v, room);
    ValueSound(s, 0, room);
    ValueReads(s, 0, room, Start);
    AdmissibleDeeper(Start, evs, limit, room);
    var trace := ValueAt(s, 0, room).path.trace;
    ScannedFollows(s, 0, Start, room, trace, evs);
    MarksSpell(evs, 0);
    EventsPrefix(trace, |evs|);
  }

  lemma EventsPrefix(trace: seq<Mark>, k: nat)
    requires k <= |trace|
    ensures Events(trace[..k]) == Events(trace)[..k]
  {
  }

  // ---- Errors in terms of the input ----

  /** An opening byte where a value is due and the depth limit is reached. */
  predicate OpensTooDeep(s: Bytes, t: nat, z: Zip, limit: nat) {
    t < |s| && !AwaitsKey(z) && (s[t] == CH_L || s[t] == CH_D) && limit <= |z.stack|
  }

  /** A whole key that is not greater than the last one of its dictionary. */
  predicate KeyNotAbove(s: Bytes, t: nat, z: Zip) {
    && t <= |s| && KeyEnds(s, t, z, StringAt(s, t).pos) && LastKey(Top(z)).Some?
    && NotAbove(s[StringAt(s, t).off..StringAt(s, t).pos], LastKey(Top(z)).value)
  }

  /** `i-0` where a value is due. */
  predicate NegatedZero(s: Bytes, t: nat, z: Zip) {
    !AwaitsKey(z) && NegativeZero(s, t, t + 3)
  }

  /** The three errors that the last byte read settles. */
  predicate EndsInError(s: Bytes, t: nat, z: Zip, limit: nat) {
    OpensTooDeep(s, t, z, limit) || KeyNotAbove(s, t, z) || NegatedZero(s, t, z)
  }

  /** The input ends inside a token that more bytes could complete: nothing is
      left; an integer without a digit or without its closing byte; a string
      without its colon or with too short a payload. */
  predicate InputEnds(s: Bytes, t: nat, z: Zip)
    requires t <= |s|
  {
    if t == |s| then true
    else if s[t] == CH_I then !AwaitsKey(z) && IntegerOpen(s, t)
    else IsDigit(s[t]) && StringIsOpen(s, t)
  }

  predicate IntegerOpen(s: Bytes, t: nat)
    requires t < |s|
  {
    var q := DigitsAt(s, t);
    q == |s| ||
    (&& IsDigit(s[q]) && RunEnd(s, q) == |s| && Canonical(s[q..]) && Val(s[q..]) <= Largest(s, t)
     && !(q == t + 2 && Val(s[q..]) == 0))
  }

  predicate StringIsOpen(s: Bytes, t: nat)
    requires t < |s|
  {
    var e := RunEnd(s, t);
    && Canonical(s[t..e]) && Val(s[t..e]) <= SIZE_MAX
    && (e == |s| || (s[e] == COLON && |s| - (e + 1) < Val(s[t..e])))
  }

  lemma EndsInErrorExactly(s: Bytes, t: nat, z: Zip, limit: nat)
    requires t <= |s| && Scan(s, t, z, limit).st != Ok
    ensures var f := Scan(s, t, z, limit);
            BeforeCursor(s, t, f.st, f.pos) <==> EndsInError(s, t, z, limit)
  {
    hide IntAt, StringAt, Less, LastKey;
    FaultMeaning(s, t, z, limit);
    hide Culprit;
    if NegatedZero(s, t, z) {
      NegativeZeroStops(s, t);
    }
    if KeyNotAbove(s, t, z) {
      var last := LastKey(Top(z)).value;
      LessIrreflexive(last);
    }
  }

  lemma InputEndsExactly(s: Bytes, t: nat, z: Zip, limit: nat)
    requires t <= |s|
    ensures Scan(s, t, z, limit).st in {Truncated, StringLength} <==> InputEnds(s, t, z)
  {
    hide IntAt, StringAt, Less, LastKey, IntegerOpen, StringIsOpen;
    if t < |s| && s[t] == CH_I {
      IntegerOpenExactly(s, t);
    } else if t < |s| && IsDigit(s[t]) {
      StringOpenExactly(s, t);
    }
  }

  lemma IntegerOpenExactly(s: Bytes, t: nat)
    requires t < |s| && s[t] == CH_I
    ensures IntAt(s, t).st in {Truncated, StringLength} <==> IntegerOpen(s, t)
  {
    hide Unsigned, RunEnd, Val, Canonical, Digits;
    var q := DigitsAt(s, t);
    if q < |s| && IsDigit(s[q]) {
      UnsignedExact(s, q, Largest(s, t));
      assert s[q..|s|] == s[q..];
    }
  }

  lemma StringOpenExactly(s: Bytes, t: nat)
    requires t < |s| && IsDigit(s[t])
    ensures StringAt(s, t).st in {Truncated, StringLength} <==> StringIsOpen(s, t)
  {
    hide Unsigned, RunEnd, Val, Canonical, Digits;
    UnsignedExact(s, t, SIZE_MAX);
  }

  /** The text of admissible events, then a token in error: that token's status
      and cursor are the outcome. `consumed` is the offset of the offending byte
      if and only if the input does not end inside the token and the token is not
      an opening byte at the depth limit, a whole key not above the last one, or
      `i-0`; in these three cases it is one more. */
  lemma ConsumedOnInput(evs: seq<Event>, rest: Bytes, maxDepth: nat)
    requires Admissible(Start, evs, Clamp(maxDepth)) && LegalAll(Start, evs) && !Finished(Run(Start, evs))
    requires Scan(Spell(evs) + rest, |Spell(evs)|, Run(Start, evs), Clamp(maxDepth)).st != Ok
    ensures var s, t, z, limit := Spell(evs) + rest, |Spell(evs)|, Run(Start, evs), Clamp(maxDepth);
            var path, f := Decode(s, maxDepth).path, Scan(s, t, z, limit);
            && path == Path(f.st, f.pos, Marks(evs, 0))
            && (Settles(s, maxDepth, path.pos) <==> !InputEnds(s, t, z) && !EndsInError(s, t, z, limit))
            && (Settles(s, maxDepth, path.pos - 1) <==> EndsInError(s, t, z, limit))
            && ((exists k :: Settles(s, maxDepth, k)) <==> !InputEnds(s, t, z))
  {
    hide ValueAt, Scan, Admissible, LegalAll, Run, Spell, Marks, At, Settles, InputEnds, EndsInError;
    var s, t, z, limit := Spell(evs) + rest, |Spell(evs)|, Run(Start, evs), Clamp(maxDepth);
    AtSelf(Spell(evs), rest);
    RunFollows(s, maxDepth, evs);
    MarksSpell(evs, 0);
    ConsumedAndOffender(s, maxDepth);
    EndsInErrorExactly(s, t, z, limit);
    InputEndsExactly(s, t, z, limit);
  }

  /** A dictionary at any depth: where a key is due, a key that is not greater than
      the last one ends the parse, as a duplicate or as unsorted, with the cursor
      at the end of that key, whatever follows. */
  lemma BadKeyAtAnyDepth(evs: seq<Event>, key: Bytes, rest: Bytes, maxDepth: nat)
    requires Admissible(Start, evs, Clamp(maxDepth)) && LegalAll(Start, evs) && AwaitsKey(Run(Start, evs))
    requires var last := LastKey(Top(Run(Start, evs))); last.Some? && NotAbove(key, last.value)
    requires |key| <= SIZE_MAX
    ensures var last := LastKey(Top(Run(Start, evs))).value;
            var path := Decode(Spell(evs) + (EncodeStr(key) + rest), maxDepth).path;
            path == Path(Rejection(last, key), |Spell(evs)| + |EncodeStr(key)|, Marks(evs, 0))
  {
    hide ValueAt, Scan, Admissible, LegalAll, Run, Spell, Marks, At, EncodeStr, LastKey, NotAbove, Rejection;
    var s, t, z := Spell(evs) + (EncodeStr(key) + rest), |Spell(evs)|, Run(Start, evs);
    AtSelf(Spell(evs), EncodeStr(key) + rest);
    AtTail(Spell(evs), EncodeStr(key), rest);
    BadKeyScan(s, t, z, Clamp(maxDepth), key);
    RunFollows(s, maxDepth, evs);
  }

  lemma AtTail(a: Bytes, b: Bytes, c: Bytes)
    ensures At(a + (b + c), |a|, b)
  {
    assert (a + (b + c))[|a|..|a|+|b|] == b;
  }

  lemma BadKeyScan(s: Bytes, t: nat, z: Zip, limit: nat, key: Bytes)
    requires AwaitsKey(z) && |key| <= SIZE_MAX && At(s, t, EncodeStr(key))
    requires LastKey(Top(z)).Some? && NotAbove(key, LastKey(Top(z)).value)
    ensures t <= |s| && Scan(s, t, z, limit) == Stop(Rejection(LastKey(Top(z)).value, key), t + |EncodeStr(key)|)
  {
    hide At, EncodeStr, StringAt, IntAt, LastKey, NotAbove, KeyAt, Rejection;
    BadKey(s, t, key, LastKey(Top(z)).value);
  }

  /** All keys so far have lengths that fit. */
  ghost predicate KeysFit(z: Zip) {
    forall k :: 0 <= k < |z.stack| && z.stack[k].FDict? ==> FrameFits(z.stack[k])
  }

  ghost predicate FrameFits(f: Frame)
    requires f.FDict?
  {
    && (f.key.Some? ==> |f.key.value| <= SIZE_MAX)
    && forall i :: 0 <= i < |f.pairs| ==> |f.pairs[i].key| <= SIZE_MAX
  }

  lemma {:induction false} KeysFitAfter(z: Zip, evs: seq<Event>, limit: nat)
    requires KeysFit(z) && Admissible(z, evs, limit) && LegalAll(z, evs)
    ensures KeysFit(Run(z, evs))
    decreases |evs|
  {
    hide Legal, Step, KeysFit;
    if evs != [] {
      StepFits(z, evs[0]);
      KeysFitAfter(Step(z, evs[0]), evs[1..], limit);
    }
  }

  lemma StepFits(z: Zip, e: Event)
    requires KeysFit(z) && Legal(z, e) && Printable(e)
    ensures KeysFit(Step(z, e))
  {
    hide Less;
  }

  /** A key that the dictionary already has, at any depth and whatever follows: a
      duplicate if and only if it is the last one, otherwise unsorted. */
  lemma RepetitionAtAnyDepth(evs: seq<Event>, i: nat, rest: Bytes, maxDepth: nat)
    requires Admissible(Start, evs, Clamp(maxDepth)) && LegalAll(Start, evs) && AwaitsKey(Run(Start, evs))
    requires i < |Top(Run(Start, evs)).pairs|
    ensures var pairs := Top(Run(Start, evs)).pairs;
            var key := pairs[i].key;
            var path := Decode(Spell(evs) + (EncodeStr(key) + rest), maxDepth).path;
            && path.st == (if i == |pairs| - 1 then DictDuplicate else DictUnsorted)
            && path.pos == |Spell(evs)| + |EncodeStr(key)| && path.trace == Marks(evs, 0)
  {
    hide ValueAt, Admissible, LegalAll, Run, Spell, Marks, EncodeStr, Less;
    var pairs := Top(Run(Start, evs)).pairs;
    KeysFitAfter(Start, evs, Clamp(maxDepth));
    RunWell(Start, evs);
    assert WellFrame(Top(Run(Start, evs)));
    var n := |pairs| - 1;
    if i < n {
      assert Less(pairs[i].key, pairs[n].key);
      LessIrreflexive(pairs[n].key);
    }
    BadKeyAtAnyDepth(evs, pairs[i].key, rest, maxDepth);
  }
}
