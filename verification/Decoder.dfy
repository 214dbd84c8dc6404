/** What the streaming parser does, as a function of the input: the status, the
    final cursor, the value read, and the events with the cursor position at
    which each is reported. The imperative parser is proved against it. */
module Decoder {
  import opened Bytes
  import opened Decimal
  import opened Values

  const DEFAULT_MAX_DEPTH: nat := 64
  const INTERNAL_MAX_DEPTH: nat := 256

  /** An event together with the cursor when it is reported. */
  datatype Mark = Mark(ev: Event, at: nat)

  /** Status, final cursor, and all events of a run no callback interrupts. */
  datatype Path = Path(st: Status, pos: nat, trace: seq<Mark>)

  datatype Out<+T> = Out(path: Path, val: T)

  function Events(trace: seq<Mark>): (evs: seq<Event>)
    ensures |evs| == |trace|
  {
    seq(|trace|, i requires 0 <= i < |trace| => trace[i].ev)
  }

  lemma EventsConcat(a: seq<Mark>, b: seq<Mark>)
    ensures Events(a + b) == Events(a) + Events(b)
  {
  }

  /** The same run with earlier events put before it. */
  function After(pre: seq<Mark>, path: Path): Path {
    Path(path.st, path.pos, pre + path.trace)
  }

  function Stop(st: Status, pos: nat): Path {
    Path(st, pos, [])
  }

  // ---- Leaves ----

  datatype StrTok = StrTok(st: Status, pos: nat, off: nat)

  /** `<length>:<bytes>` at `p`: on success the payload is `s[off..pos]`. */
  function StringAt(s: Bytes, p: nat): (r: StrTok)
    requires p <= |s|
    ensures p <= r.pos <= |s|
    ensures r.st == Ok ==> p < r.off <= r.pos
    ensures r.st == Truncated ==> r.pos == |s|
  {
    var u := Unsigned(s, p, SIZE_MAX);
    if u.st != Ok then StrTok(u.st, u.pos, 0)
    else if u.pos == |s| then StrTok(Truncated, u.pos, 0)
    else if s[u.pos] != COLON then StrTok(UnexpectedByte, u.pos, 0)
    else if u.mag > |s| - (u.pos + 1) then StrTok(StringLength, u.pos + 1, 0)
    else StrTok(Ok, u.pos + 1 + u.mag, u.pos + 1)
  }

  datatype IntTok = IntTok(st: Status, pos: nat, value: int)

  /** `i<digits>e` at `p`, with the cursor on the `i`. */
  function IntAt(s: Bytes, p: nat): (r: IntTok)
    requires p < |s|
    ensures p < r.pos <= |s|
    ensures r.st == Truncated ==> r.pos == |s|
  {
    var negative := p + 1 < |s| && s[p+1] == MINUS;
    var q := if negative then p + 2 else p + 1;
    if q == |s| then IntTok(Truncated, q, 0)
    else if !IsDigit(s[q]) then IntTok(IntegerFormat, q, 0)
    else
      var u := Unsigned(s, q, if negative then INT64_MAX + 1 else INT64_MAX);
      if u.st != Ok then IntTok(u.st, u.pos, 0)
      else if negative && u.mag == 0 then IntTok(IntegerFormat, u.pos, 0)
      else if u.pos == |s| then IntTok(Truncated, u.pos, 0)
      else if s[u.pos] != CH_E then IntTok(UnexpectedByte, u.pos, 0)
      else
        var value: int := if negative then 0 - u.mag else u.mag;
        IntTok(Ok, u.pos + 1, value)
  }

  // ---- Values and containers; `room` is the number of levels still allowed ----

  function ValueAt(s: Bytes, p: nat, room: nat): (r: Out<Value>)
    requires p <= |s|
    ensures p <= r.path.pos <= |s|
    ensures r.path.st == Ok ==> p < r.path.pos
    decreases |s| - p, 0
  {
    if p == |s| then Out(Stop(Truncated, p), VInt(0))
    else if s[p] == CH_I then
      var t := IntAt(s, p);
      if t.st != Ok then Out(Stop(t.st, t.pos), VInt(0))
      else Out(Path(Ok, t.pos, [Mark(EInt(t.value), t.pos)]), VInt(t.value))
    else if s[p] == CH_L then
      if room == 0 then Out(Stop(NestingTooDeep, p + 1), VInt(0))
      else
        var r := ItemsAt(s, p + 1, room - 1);
        Out(After([Mark(EListBegin, p + 1)], r.path), VList(r.val))
    else if s[p] == CH_D then
      if room == 0 then Out(Stop(NestingTooDeep, p + 1), VInt(0))
      else
        var r := EntriesAt(s, p + 1, room - 1, None);
        Out(After([Mark(EDictBegin, p + 1)], r.path), VDict(r.val))
    else if IsDigit(s[p]) then
      var t := StringAt(s, p);
      if t.st != Ok then Out(Stop(t.st, t.pos), VInt(0))
      else Out(Path(Ok, t.pos, [Mark(EStr(s[t.off..t.pos]), t.pos)]), VStr(s[t.off..t.pos]))
    else Out(Stop(UnexpectedByte, p), VInt(0))
  }

  /** The rest of a list, after its items so far. */
  function ItemsAt(s: Bytes, p: nat, room: nat): (r: Out<seq<Value>>)
    requires p <= |s|
    ensures p <= r.path.pos <= |s|
    ensures r.path.st == Ok ==> p < r.path.pos
    decreases |s| - p, 1
  {
    if p == |s| then Out(Stop(Truncated, p), [])
    else if s[p] == CH_E then Out(Path(Ok, p + 1, [Mark(EListEnd, p + 1)]), [])
    else
      var v := ValueAt(s, p, room);
      if v.path.st != Ok then Out(v.path, [])
      else
        var rest := ItemsAt(s, v.path.pos, room);
        Out(After(v.path.trace, rest.path), [v.val] + rest.val)
  }

  /** One key: a string that comes strictly after the previous key. */
  function KeyAt(s: Bytes, p: nat, last: Option<Bytes>): (r: Out<Bytes>)
    requires p < |s|
    ensures p <= r.path.pos <= |s|
    ensures r.path.st == Ok ==> p < r.path.pos
  {
    if !IsDigit(s[p]) then Out(Stop(DictBadKey, p), [])
    else
      var t := StringAt(s, p);
      if t.st != Ok then Out(Stop(t.st, t.pos), [])
      else
        var key := s[t.off..t.pos];
        if last.Some? && last.value == key then Out(Stop(DictDuplicate, t.pos), [])
        else if last.Some? && Less(key, last.value) then Out(Stop(DictUnsorted, t.pos), [])
        else Out(Path(Ok, t.pos, [Mark(EStr(key), t.pos)]), key)
  }

  /** The rest of a dictionary at a key boundary. */
  function EntriesAt(s: Bytes, p: nat, room: nat, last: Option<Bytes>): (r: Out<seq<Pair>>)
    requires p <= |s|
    ensures p <= r.path.pos <= |s|
    ensures r.path.st == Ok ==> p < r.path.pos
    decreases |s| - p, 1
  {
    if p == |s| then Out(Stop(Truncated, p), [])
    else if s[p] == CH_E then Out(Path(Ok, p + 1, [Mark(EDictEnd, p + 1)]), [])
    else
      var k := KeyAt(s, p, last);
      if k.path.st != Ok then Out(k.path, [])
      else
        var rest := AfterKeyAt(s, k.path.pos, room, k.val);
        Out(After(k.path.trace, rest.path), rest.val)
  }

  /** The rest of a dictionary once `key` has been read and its value is due. */
  function AfterKeyAt(s: Bytes, p: nat, room: nat, key: Bytes): (r: Out<seq<Pair>>)
    requires p <= |s|
    ensures p <= r.path.pos <= |s|
    ensures r.path.st == Ok ==> p < r.path.pos
    decreases |s| - p, 1
  {
    if p == |s| then Out(Stop(Truncated, p), [])
    else if s[p] == CH_E then Out(Stop(DictMissingValue, p), [])
    else
      var v := ValueAt(s, p, room);
      if v.path.st != Ok then Out(v.path, [])
      else
        var rest := EntriesAt(s, v.path.pos, room, Some(key));
        Out(After(v.path.trace, rest.path), [Pair(key, v.val)] + rest.val)
  }

  // ---- One step of each function ----

  lemma IntUnfold(s: Bytes, p: nat, room: nat)
    requires p < |s| && s[p] == CH_I
    ensures var t := IntAt(s, p); var v := ValueAt(s, p, room);
            if t.st != Ok then v.path == Stop(t.st, t.pos)
            else v == Out(Path(Ok, t.pos, [Mark(EInt(t.value), t.pos)]), VInt(t.value))
  {
    hide IntAt;
  }

  lemma StringUnfold(s: Bytes, p: nat, room: nat)
    requires p < |s| && IsDigit(s[p])
    ensures var t := StringAt(s, p); var v := ValueAt(s, p, room);
            if t.st != Ok then v.path == Stop(t.st, t.pos)
            else v == Out(Path(Ok, t.pos, [Mark(EStr(s[t.off..t.pos]), t.pos)]), VStr(s[t.off..t.pos]))
  {
    hide StringAt;
  }

  lemma ListUnfold(s: Bytes, p: nat, room: nat)
    requires p < |s| && s[p] == CH_L
    ensures var v := ValueAt(s, p, room);
            if room == 0 then v.path == Stop(NestingTooDeep, p + 1)
            else
              var r := ItemsAt(s, p + 1, room - 1);
              v == Out(After([Mark(EListBegin, p + 1)], r.path), VList(r.val))
  {
    hide ItemsAt;
  }

  lemma DictUnfold(s: Bytes, p: nat, room: nat)
    requires p < |s| && s[p] == CH_D
    ensures var v := ValueAt(s, p, room);
            if room == 0 then v.path == Stop(NestingTooDeep, p + 1)
            else
              var r := DictRest(s, p + 1, room - 1, None, None);
              v == Out(After([Mark(EDictBegin, p + 1)], r.path), VDict(r.val))
  {
    hide EntriesAt;
  }

  lemma ItemsAtEnd(s: Bytes, p: nat, room: nat)
    requires p == |s|
    ensures ItemsAt(s, p, room) == Out(Stop(Truncated, p), [])
  {
  }

  lemma ItemsAtClose(s: Bytes, p: nat, room: nat)
    requires p < |s| && s[p] == CH_E
    ensures ItemsAt(s, p, room) == Out(Path(Ok, p + 1, [Mark(EListEnd, p + 1)]), [])
  {
  }

  lemma ItemsUnfold(s: Bytes, p: nat, room: nat)
    requires p < |s| && s[p] != CH_E
    ensures var v := ValueAt(s, p, room); var all := ItemsAt(s, p, room);
            if v.path.st != Ok then all == Out(v.path, [])
            else
              var rest := ItemsAt(s, v.path.pos, room);
              all == Out(After(v.path.trace, rest.path), [v.val] + rest.val)
  {
    hide ValueAt;
  }

  /** What is left of a dictionary, in either of its two phases. */
  function DictRest(s: Bytes, p: nat, room: nat, key: Option<Bytes>, last: Option<Bytes>): Out<seq<Pair>>
    requires p <= |s|
  {
    if key.Some? then AfterKeyAt(s, p, room, key.value) else EntriesAt(s, p, room, last)
  }

  lemma DictAtEnd(s: Bytes, p: nat, room: nat, key: Option<Bytes>, last: Option<Bytes>)
    requires p == |s|
    ensures DictRest(s, p, room, key, last) == Out(Stop(Truncated, p), [])
  {
  }

  lemma DictAtClose(s: Bytes, p: nat, room: nat, key: Option<Bytes>, last: Option<Bytes>)
    requires p < |s| && s[p] == CH_E
    ensures DictRest(s, p, room, key, last)
         == if key.Some? then Out(Stop(DictMissingValue, p), [])
            else Out(Path(Ok, p + 1, [Mark(EDictEnd, p + 1)]), [])
  {
  }

  lemma EntriesUnfold(s: Bytes, p: nat, room: nat, last: Option<Bytes>)
    requires p < |s| && s[p] != CH_E
    ensures var k := KeyAt(s, p, last); var all := DictRest(s, p, room, None, last);
            if k.path.st != Ok then all == Out(k.path, [])
            else
              var rest := DictRest(s, k.path.pos, room, Some(k.val), last);
              all == Out(After(k.path.trace, rest.path), rest.val)
  {
    hide KeyAt, AfterKeyAt;
  }

  lemma AfterKeyUnfold(s: Bytes, p: nat, room: nat, key: Bytes, last: Option<Bytes>)
    requires p < |s| && s[p] != CH_E
    ensures var v := ValueAt(s, p, room); var all := DictRest(s, p, room, Some(key), last);
            if v.path.st != Ok then all == Out(v.path, [])
            else
              var rest := DictRest(s, v.path.pos, room, None, Some(key));
              all == Out(After(v.path.trace, rest.path), [Pair(key, v.val)] + rest.val)
  {
    hide ValueAt, EntriesAt;
  }

  /** The caller's depth option: 0 means the default, and the cap is 256. */
  function Clamp(maxDepth: nat): nat {
    var effective := if maxDepth == 0 then DEFAULT_MAX_DEPTH else maxDepth;
    if effective > INTERNAL_MAX_DEPTH then INTERNAL_MAX_DEPTH else effective
  }

  function Decode(s: Bytes, maxDepth: nat): Out<Value> {
    ValueAt(s, 0, Clamp(maxDepth))
  }
}
