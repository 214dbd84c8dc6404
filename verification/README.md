# Bencode codec: model and proofs

A Dafny model of a strict Bencode library: the streaming parser, the tree
builder driven by its callbacks, the value tree with its sorted dictionaries,
and the emitter. It follows the C sources function by function, with cursors,
fixed stacks, growable arrays, nodes and an allocator that may refuse any
request on the heap, and proves that decoding and encoding are exact inverses
and that no run leaks, double-frees or leaves its arrays.

`dafny verify dfyconfig.toml` checks everything.

## Layers

- **Specification.** `Values` has the abstract values, their encoding and their
  event sequence. `Decoder` is what parsing yields as a function of the input:
  status, cursor, value, and each event with the cursor at which it is reported.
  `Grammar` proves that it accepts exactly the encodings of well-formed values.
  `Zipper` is the state a sequence of events leads to: the open containers and
  what they hold. `Faults` reduces every failure to one token met in one such
  state, and `Spelling` shows that the input determines all of it: which events,
  which state, which token. `Finality`, `Offsets`, `Diagnostics` and `Streams`
  draw consequences. `Capacity` is about the runs that fill a container.
  `Dicts` relates sorted entries to finite maps, and `Decimal` digit runs to
  numbers. `Format` and `Exits` anchor these definitions in plain numbers: the
  bytes of every encoding, the bounds, the depth option, and for every state and
  next byte the parser's exit.
- **Heap.** `Memory` has the allocator with the set of live blocks, the sizes
  asked for and the count of requests refused. Every operation names the sizes it
  asks for (`Allocator.Asks`): the first that is refused ends it, and nothing else
  makes it fail but a size guard. `Requests` has these sizes in closed form. In
  `Tree` a ghost `Shape` describes a tree on the heap: its value (`Den`), its blocks
  (`Owned`), the buffers it points into (`Borrowed`). `Builders`, `DictStore`
  and `Cloning` are the operations on it. `Spine` is the unfinished tree while
  containers are open, and `Dom` the builder's frame stack over it.
- **Runs.** `Sax` is the imperative parser, proved against the decoder function
  and against the zipper at once, so the parser's scopes, the builder's frames
  and the events agree container by container. `Handlers` is the callback table,
  `Parsing` the public entry points, `Chunks` what an emit sends, `Emit` the
  printer and its sinks. `Codec`, `Splitting` and `Bindings` are compositions of
  them: round trips, buffers of several values, runs of dictionary sets.

## The simulation

At each event the parser's scope stack, the reported events and the builder's
frame stack describe the same open containers (`Sax.Parser.Sim`,
`Dom.DomState.Agrees`). The key flags agree at the innermost container only: the
builder raises the flag of a dictionary when a nested container is attached to
it, the parser when that container has been read to its end. From the agreement
it follows that the builder's depth check, its checks for an empty stack on
closing, and the replacing branch of set never matter in a parse.

## Where the code and its documentation differ

The code is followed; the differences are these.

- `BENCODE_ERR_DICT_DUPLICATE` is documented for any dictionary with the same key
  twice (include/bencode/bencode.h:104-107). The parser compares with the
  previous key only. `Spelling.RepetitionAtAnyDepth` says, for every input that
  comes to a repeated key at any depth, exactly when it is reported as a
  duplicate, and `Diagnostics.DuplicateReportedUnsorted` gives inputs where it is
  not.
- On failure `consumed` is documented as the offset of the error
  (include/bencode/bencode.h:248-251). `Faults.CursorMeaning` says what stands at
  the cursor for each status. Take as the offending byte the one that settles the
  outcome: with it, and not before it, no further bytes can change the status.
  `Spelling.ConsumedOnInput` takes any input apart into the text of the events
  before the failure and the rest, and proves that `consumed` is the offset of the
  offending byte if and only if the rest does not end inside its first token and
  does not begin with an opening byte at the depth limit, a whole key that is not
  above the last one, or `i-0`; in these three cases it is one more, and when the
  input ends inside the token no byte settles the outcome.
  `Offsets.OverlongString` (`9:`), `Offsets.NegativeZeroOffset` (`i-0`) and
  `Diagnostics.DuplicateReportedUnsorted` (an unsorted key) are inputs where
  `consumed` is not the offset.
- `BENCODE_ERR_NOMEM` is documented as "Allocator returned NULL"
  (include/bencode/bencode.h:115-116). The size guards report it, too: a list of
  2^60 items and a dictionary of 2^59 entries cannot grow, and the emitted bytes
  cannot exceed 2^63. Every operation states exactly when: a request was refused,
  or a guard fired. `Parsing.RoomyExactly` says which encodings fire one in a
  parse, `Parsing.TooWide` is an input that does, and no input up to 2^59 bytes
  does (`Parsing.SmallInputsAreRoomy`).
- A length prefix with a leading zero, or too large for 64 bits, is reported with
  the integer statuses, which the header describes for integers only
  (include/bencode/bencode.h:93-98, src/parse_sax.c:200-208).
  `Offsets.LengthPrefixErrors` says exactly when, `Offsets.LeadingZeroInLength`
  (`01:`) is an input.
- The header counts `:` among the bytes where a value may start
  (include/bencode/bencode.h:89-91); by `Offsets.ColonStartsNothing` no value
  starts with it.

## Model

| member | source | states |
|---|---|---|
| Bytes.BytesCmpDecides | src/parse_sax.c:75-88 | The three-way comparison of the parser is negative, zero or positive exactly when the first string is smaller than, equal to or greater than the second in the lexicographic byte order, with a proper prefix smaller. |
| Bytes.LessExactly | src/parse_sax.c:75-88 | The key order said outright: one string is smaller than another if and only if they agree up to some place where the first ends, or has a smaller byte, and the second goes on. |
| Bytes.LessTransitive | src/parse_sax.c:306-318 | The key order is transitive, which is why comparing each key with the one before it is enough. |
| Bytes.LessAsymmetric | src/parse_sax.c:306-318 | No two keys are each smaller than the other, and a smaller key is a different key. |
| Bytes.LessTotal | src/parse_sax.c:306-318 | Of two keys one is smaller or they are equal, so the three verdicts on a key cover all cases. |
| Decimal.UnsignedExact | src/parse_sax.c:105-133 | At a digit, the number is accepted if and only if the whole maximal digit run is canonical and its value is at most the bound, reported as overflow if and only if it is canonical and larger, as a format error if and only if it is not canonical; an accepted run is the printed form of the number returned. |
| Decimal.UnsignedReadsDigits | src/parse_sax.c:105-133 | The printed form of any number up to the bound, followed by anything but a digit, is read back as that number, with the cursor right after it. |
| Decimal.ValOfDigits | src/emit.c:36-45 | The printed form of a number denotes that number. |
| Decimal.DigitsOfVal | src/emit.c:36-45 | Printing the value of a canonical digit string gives back that very string. |
| Decimal.NumeralsUnique | include/bencode/bencode.h:16-20 | Two canonical digit strings with the same value are the same string. |
| Format.IntegerText | include/bencode/bencode.h:16-20 | The text of an integer, in byte values: 105, the digits after 45 if it is negative, 101. |
| Format.StringBytes | include/bencode/bencode.h:16-20 | The text of a string: the digits of its length, 58, its bytes. |
| Format.ListBytes | include/bencode/bencode.h:16-20 | The text of a list: 108, the texts of the items in order, 101. |
| Format.DictBytes | include/bencode/bencode.h:16-20 | The text of a dictionary: 100, for each entry the text of the key and that of the value, 101. |
| Format.DigitsExactly | src/emit.c:36-45 | The digits printed for a number are the one string of bytes 48 to 57 without a superfluous leading 48 that has the value of the number in base ten. |
| Format.WellFormedExactly | include/bencode/bencode.h:93-107 | The well-formed values, with literal bounds: 64-bit integers, lengths below 2^64, and dictionaries whose keys increase, where the order of keys is spelled out. |
| Format.NestingExactly | include/bencode/bencode.h:184-188 | A leaf has nesting 0, and a container is within `n + 1` levels if and only if each child is within `n`. |
| Format.EventsExactly | src/parse_sax.c:255-386 | The events of a value: one for a leaf; for a container its beginning, the children in order, each key before its value, and its end. |
| Format.DepthOption | include/bencode/bencode.h:184-188 | The depth option in numbers: an encoding is accepted if and only if its nesting is at most 64 for the option 0, the option itself up to 256, and 256 beyond; otherwise it is nested too deeply. |
| Emit.HeadersFit | src/emit.c:36-60 | No printed integer has more than 19 digits and no printed length more than 20, so the 32-byte buffers never overflow and formatting never fails. |
| Grammar.ValueSound | src/parse_sax.c:389-416 | Whatever is accepted as a value is well formed (64-bit integers, keys strictly increasing), within the nesting limit, and spelled by exactly the bytes consumed; the events reported are those of the value. |
| Grammar.ItemsSound | src/parse_sax.c:255-291 | The same for the rest of a list up to its closing byte. |
| Grammar.EntriesSound | src/parse_sax.c:326-386 | The same for the rest of a dictionary; its keys also exceed the key before. |
| Grammar.ConsSorted | src/parse_sax.c:306-318 | Comparing with the neighbour only makes all keys of a dictionary increasing, hence distinct. |
| Grammar.ValueComplete | src/parse_sax.c:389-416 | Wherever the encoding of a well-formed value within the nesting limit occurs, parsing there succeeds with that value and consumes exactly the encoding. |
| Grammar.ValueTooDeep | src/parse_sax.c:237-248 | Wherever the encoding of a well-formed value deeper than the limit occurs, parsing fails, and fails with the nesting error. |
| Grammar.AcceptsExactly | include/bencode/bencode.h:16-20 | The accepted language, both directions: parsing at a position succeeds with `v` if and only if `v` is well formed, nested no deeper than allowed, and its encoding stands there. |
| Grammar.DecodeThenEncode | include/bencode/bencode.h:16-20 | Decode then encode is bit-exact for every accepted input and every limit, trailing bytes or not. |
| Grammar.EncodeThenDecode | include/bencode/bencode.h:467-471 | Encoding a well-formed value within the limit and decoding it, with any bytes behind it, gives the value back, consumes exactly the encoding and reports exactly the value's events. |
| Grammar.EncodedOutcome | include/bencode/bencode.h:184-188 | Decoding an encoding can fail in one way only, and does so exactly when the nesting exceeds the limit: 64 for the option 0, else the option, but at most 256. |
| Grammar.EncodePrefixFree | include/bencode/bencode.h:16-20 | If two encodings, each with some tail, are the same bytes, then the values and the tails are the same: the encoding is injective and prefix-free. |
| Grammar.DepthLimitExact | src/parse_sax.c:438-442 | An input accepted under one limit is accepted under another if and only if its nesting is within the other limit (64 for 0, else the option, at most 256), and then with the same value and the same consumed count. |
| Grammar.IntegerRoundTrip | tests/test_bencode.c:604-620 | Every 64-bit integer, both extremes included, is parsed back from its printed form. |
| Finality.OutcomeFinal | src/parse_sax.c:389-416 | Success and every error other than "truncated" and "string length" keep the same status, consumed count, events and value whatever bytes are appended. |
| Finality.ProperPrefixFails | src/parse_sax.c:272-416 | Cut an accepted value short anywhere: the outcome is "truncated" or "string length" and nothing else. |
| Finality.TruncatedAtEnd | src/parse_sax.c:105-133 | "Truncated" is reported only with the cursor at the end of the input. |
| Finality.ValueFinal | src/parse_sax.c:389-416 | The same finality at any position and any remaining depth. |
| Faults.ValueReads | src/parse_sax.c:255-416 | Every run, at any position, in any state that awaits a value and with any room: its events are legal; on success they deliver the value read, and on failure status and cursor are what the next token means in the state the events lead to. |
| Faults.FailsByToken | src/parse_sax.c:105-416 | Every failed parse stops at one token, which begins where the last event was reported; status and cursor are a function of that token and of the state. |
| Faults.FaultMeaning | src/parse_sax.c:105-416 | What that function means, status by status, in terms of digit runs, bounds, keys and depth. |
| Faults.CursorMeaning | include/bencode/bencode.h:248-251 | What stands at `consumed` after any failure: the end of the input; a byte that starts nothing or ends a number wrongly; the first digit beyond the bound; a non-digit, a digit after a leading zero, or the byte after `-0`; the payload of a string that is too long; a byte that starts no key; a closing byte where a value is due; the byte after an opening one at the limit; the end of a key that is not greater than the last. |
| Exits.SimpleToken | src/parse_sax.c:237-291 | What happens at the end of the input, at an opening or closing byte, and at a byte with which nothing starts: which event or which error and with which cursor, for every state, in byte values. |
| Exits.IntegerToken | src/parse_sax.c:137-193 | An integer, exit by exit: in terms of the maximal digit run, its value and the literal bounds of 64 bits, which error with which cursor, or the event. |
| Exits.StringToken | src/parse_sax.c:200-231 | A string value, exit by exit, with the literal bound of 64 bits on the length. |
| Exits.KeyToken | src/parse_sax.c:296-324 | A key, exit by exit, including the order check against the last key. |
| Exits.RunEndExactly | src/parse_sax.c:105-133 | The digit run used by the exits is the maximal one: bytes 48 to 57 up to a byte that is none, or the end. |
| Exits.StringLengthExactly | src/parse_sax.c:214-221 | A token gives "string length" if and only if it is a string or a due key whose length is canonical and within 64 bits, is followed by 58, and exceeds the bytes that are left; so `l5:` at its end is "string length" and not "truncated". |
| Exits.TokenBytes | src/parse_sax.c:389-416 | The text of an event sequence, in byte values, one event at a time. |
| Offsets.ValueOpen | src/parse_sax.c:389-416 | If the first bytes leave the outcome open, the byte that settles it comes after them, whatever follows. |
| Offsets.SettledByToken | include/bencode/bencode.h:248-251 | Every outcome but "truncated" and "string length" is settled by exactly the byte at the cursor or the one before it, according to status and token: with one byte less the outcome is still open, with it no more. |
| Offsets.SettlesOnce | include/bencode/bencode.h:248-251 | At most one byte settles the outcome, and the input up to it already has the outcome of the whole. |
| Offsets.ConsumedAndOffender | include/bencode/bencode.h:248-251 | The same in terms of the outcome: `consumed` is the offset of the offending byte if and only if the status is none of five and the token is not `-0`; it is one more if and only if the parse succeeded, nested too deeply, met a bad key, or the token is `-0`; an offending byte exists if and only if the status is neither "truncated" nor "string length". `Spelling.ConsumedOnInput` has the condition on the input. |
| Spelling.RunSpells | src/parse_sax.c:255-416 | Every run, failed ones included, has read exactly the text of its events, and is over there: the value is complete or the next token is an error, which gives status and cursor. Decode then encode is so bit-exact for failed parses up to the failing token. |
| Spelling.RunFollows | src/parse_sax.c:255-416 | The converse: whenever the input begins with the text of events that can be read within the limit, and the value is complete there or the next token is an error, the run has exactly those events, that status and that cursor. |
| Spelling.RunExactly | src/parse_sax.c:255-416 | Both together: a run has the events `evs` if and only if the input begins with their text and is over there, and then the outcome follows; one and only one event sequence does that for each input. |
| Spelling.ConsumedOnInput | include/bencode/bencode.h:248-251 | For every readable event sequence and every rest whose first token is an error: `consumed` is the offset of the offending byte if and only if the input does not end inside that token and the token is not an opening byte at the depth limit, a whole key not above the last one, or `i-0`; it is one more exactly in those three cases; an offending byte exists if and only if the input does not end inside the token. |
| Spelling.InputEndsExactly | src/parse_sax.c:105-231 | "Truncated" and "string length" are reported if and only if the input ends inside a token that more bytes could complete, spelled out for integers, strings and the gap between tokens. |
| Spelling.EndsInErrorExactly | src/parse_sax.c:105-324 | The errors settled by the byte before the cursor are exactly the three named tokens. |
| Spelling.BadKeyAtAnyDepth | src/parse_sax.c:296-324 | In a dictionary at any depth, after anything that can be read, a key that is not greater than the last one ends the parse as a duplicate or as unsorted, with the cursor at its end and the events so far, whatever follows. |
| Spelling.RepetitionAtAnyDepth | include/bencode/bencode.h:104-107 | In a dictionary at any depth, a key that it already has is called a duplicate if and only if it is the last one, and unsorted otherwise, whatever follows. |
| Spelling.BeginsEncoding | src/parse_sax.c:237-248 | What can be read of an encoding, under any depth limit, is a beginning of the value's events. |
| Offsets.OverlongString | include/bencode/bencode.h:248-251 | `9:` with fewer than nine bytes behind it fails with the cursor at the payload. |
| Offsets.NegativeZeroOffset | include/bencode/bencode.h:248-251 | `i-0` fails with the cursor one past the zero that settles it. |
| Offsets.LengthPrefixErrors | src/parse_sax.c:200-208 | Wherever a parse fails in a token that begins with a digit, the status is the integer format error if and only if the digits are not canonical, and integer overflow if and only if they are and exceed 64 bits. |
| Streams.SplitsExactly | include/bencode/bencode.h:193-201 | Repeated decoding from the consumed offset splits a buffer into `vs` if and only if the buffer is the concatenation of the encodings of `vs`, each within the depth limit; `Splitting.SplitBuffer` is the loop over the real parser. |
| Splitting.SplitBuffer | include/bencode/bencode.h:193-201 | The loop around the tree parser with trailing bytes allowed: the trees denote exactly what the buffer splits into, in order, share no block, and own exactly the new live blocks; or some parse failed, the buffer does not split (unless memory ran out), and every block has been given back. "Out of memory" if and only if a request was refused or a parse met a full container. The sizes asked of the allocator are those of the single parses, in order. |
| Splitting.FreeAll | src/value.c:91-126 | Freeing a list of separate trees releases exactly their blocks. |
| Diagnostics.KeyVerdict | src/parse_sax.c:306-318 | After increasing keys, a key is accepted if and only if it exceeds all of them, called a duplicate if and only if it repeats the last one, and unsorted if and only if it is smaller than the last one. |
| Diagnostics.KeyErrors | src/parse_sax.c:296-324 | Every failed parse: the status is duplicate or unsorted if and only if the events so far lead to a state where a key is due and a whole key stands there; then it equals, respectively is smaller than, the last key of the innermost dictionary, and the cursor is at its end. |
| Diagnostics.RepetitionInParse | include/bencode/bencode.h:104-107 | Whenever a parse fails at a key that the innermost dictionary already has, at any depth, the status is duplicate if and only if it was the last one, unsorted otherwise. |
| Diagnostics.RepeatedKey | include/bencode/bencode.h:104-107 | The key check against an increasing history: a key from the history is called a duplicate if and only if it was the last one, otherwise unsorted; `Spelling.RepetitionAtAnyDepth` says it of inputs. |
| Diagnostics.BadKeyRejected | src/parse_sax.c:306-318 | A whole input given by its entries: an outermost dictionary with entries that are fine, then a key not greater than the last, is rejected with the duplicate or the unsorted status, with the cursor at the end of that key, whatever follows; `Spelling.BadKeyAtAnyDepth` covers every depth. |
| Diagnostics.DuplicateReportedUnsorted | include/bencode/bencode.h:104-107 | A concrete family of inputs with the same key twice that is not reported as a duplicate, and with `consumed` one past the offending byte. |
| Zipper.RunFlatten | src/parse_sax.c:255-416 | The events of any well-formed value are legal in every state that awaits a value (containers nest, keys alternate with values, keys increase) and lead to the state that has received exactly that value. |
| Zipper.FlattenInjective | src/parse_dom.c:74-167 | Two values with the same events are the same value, so the event stream determines the tree. |
| Zipper.StepWell | src/parse_dom.c:74-167 | Every legal event keeps the invariant of the open containers: keys increase, up to and including the key that waits for its value. |
| Zipper.RunWell | src/parse_dom.c:74-167 | After any legal run the keys of all open containers increase. |
| Zipper.KeyExceedsAll | src/parse_sax.c:306-318 | A key that exceeds the last key exceeds all keys of its dictionary. |
| Capacity.ShortRunFits | src/value.c:228-255 | No run of at most 2^59 events meets a full container. |
| Capacity.FlattenFits | src/value.c:228-255 | The events of a value whose containers are within the limits meet no full container. |
| Capacity.FitsOnlyCompact | src/value.c:228-255 | Conversely, a value whose events meet no full container has all its containers within the limits. |
| Capacity.RunPlanConcat | src/parse_dom.c:144-167 | What a run asks of the allocator is what its beginning asks for and then the rest, up to the first event that meets a full container. |
| Dicts.PutRefinesMap | src/value.c:327-374 | Setting a key keeps the entries sorted, is the map update on the map they represent (other keys untouched), and adds an entry if and only if the key is new. |
| Dicts.GetRefinesMap | src/value.c:423-435 | The search finds the key at its slot if and only if the map has it, and then with the map's value. |
| Dicts.SortedUnique | src/emit.c:76-94 | Sorted entries are determined by the map they represent. |
| Dicts.RunRefinesMap | src/value.c:327-374 | Any run of sets, in any order and with any repetition, leaves the entries sorted and equal to the finite map built by the same run: the last value set wins. |
| Dicts.LastSetWins | src/value.c:327-374 | One more set at the end of a run is one more map update: the last set of a key wins. |
| Dicts.RunsAgree | src/value.c:327-374 | Two runs that end in the same bindings give the same entries and the same bytes. |
| Dicts.PermutationsAgree | src/value.c:327-374 | Insertion order does not matter: two permutations of bindings with distinct keys build the same dictionary and emit the same bytes. |
| Dicts.BuildersStayWellFormed | src/value.c:257-374 | Append and set on well-formed containers yield well-formed containers, so every built tree is inside the format. |
| Bindings.SetAll | src/value.c:327-374 | A run of sets on the heap, in any order and with any repetition: the dictionary denotes the old one with the run applied, up to the first set that fails; dropped blocks are released, children not yet set stay the caller's. Without a refusal it fails only at a new key in a full dictionary. The sizes asked of the allocator are exactly those of the single sets, in order, up to the first refusal or full dictionary. |
| Bindings.BuildDict | src/value.c:276-374 | A new dictionary filled by a run of sets, or nothing and every block given back. It asks for 40 bytes and then what the run of sets asks for. |
| Bindings.EmitBindings | src/emit.c:76-94 | The bytes emitted for a dictionary built by a run of sets with distinct keys are the bytes of every permutation of the run; only the buffer remains. |
| Bindings.SetThenGet | src/value.c:423-435 | A lookup after any run of sets finds the value set last under the key, and null if and only if the key was never set. |
| Memory.Allocator.Request | src/value.c:33-38 | The allocator may refuse any request, by an arbitrary function of the request's number and size; refusals are counted. |
| Memory.Allocator.Release | src/value.c:40-49 | Only a block that is live can be given back, and then it no longer is: a second release is impossible. |
| Memory.AllGrantedExactly | src/value.c:33-38 | A sequence of sizes is granted if and only if the allocator grants each size at its number. |
| Memory.NewArray | src/value.c:33-38 | Exactly one request, of `count * size` bytes; the result is null if and only if that request is refused, and then nothing else changed, otherwise exactly one new live block of the requested length. |
| Memory.DoubledCapacity | src/value.c:233-240 | The guarded doubling loop ends, stays within 64 bits, gives the first doubling that is large enough, and gives up if and only if that does not fit. |
| Memory.GrownCapacity | src/value.c:233-243 | The two division-based guards together refuse exactly the arrays whose size in bytes does not fit in `size_t`. |
| Memory.GrowArray | src/value.c:228-255 | Room for the elements asked for with the old elements in place and the old block given back, or nothing changed; the new capacity is the first doubling that suffices. Out of memory if and only if the doubling, times the element size, does not fit in `size_t` or that many bytes are refused; nothing else is asked for. |
| Memory.TargetExactly | src/value.c:233-243 | Growing from any doubling of the first capacity, the guards refuse exactly the requests beyond the largest doubling that fits. |
| Memory.RoomExactly | src/value.c:233-243 | One more element finds room if and only if there are not yet 2^60 items, respectively 2^59 entries. |
| Requests.CapForExactly | src/value.c:228-255 | The capacity of an array grown to `n` elements one by one is the least of 4, 8, 16, ... that is at least `n`. |
| Requests.GrowPlanExactly | src/value.c:228-255 | One more element in an array of `k` asks for a block if and only if `k` is 0 or 4, 8, 16, ... and below 2^60 (items) or 2^59 (entries); the block has 32 respectively 96 bytes for the first array and else `16 * k` respectively `48 * k`. |
| Requests.BufferCapExactly | src/emit.c:162-170 | The capacity of an emit buffer that holds `n` bytes is the least of 4096, 8192, ... that is at least `n`. |
| Requests.BufferPlanExactly | src/emit.c:155-186 | The buffers an emit asks for grow strictly, and the last one is that of the whole text. |
| Requests.CopiedItem | src/value.c:479-501 | What a clone of a list asks for: what the list without its last item does, what the item does, and the growth of the array from their number. |
| Requests.CopiedEntry | src/value.c:503-526 | The same for the last entry of a dictionary, with the length of its key, if it is not empty, before the growth of the array. |
| Requests.CopiedLeaf | src/value.c:457-478 | A clone of a leaf or an empty container asks for 40 bytes, and that of a string that is not empty also for its length. |
| Requests.ParseAndCloneBlocks | src/parse_dom.c:74-142 | A parse that builds the tree of a value and a clone of that tree ask for every size equally often, except that the clone also asks for each string value that is not empty: the parse copies no string value. |
| Requests.SmallDictAsks | src/value.c:228-255 | The events of `d1:ai1ee` ask for 40, 40, 1 and 96 bytes. |
| Tree.Free | src/value.c:91-126 | Freeing a tree releases each of its blocks exactly once and nothing else. |
| Tree.FreeItems | src/value.c:109-114 | The loop over a list releases exactly the blocks of the children. |
| Tree.FreeEntries | src/value.c:115-121 | The loop over a dictionary releases exactly the key blocks and the blocks of the values. |
| Builders.IntNew | src/value.c:130-147 | A new tree that denotes the integer and owns exactly the blocks newly live, or nothing; one request, of 40 bytes. |
| Builders.StringNew | src/value.c:149-185 | A new tree that denotes the bytes and points into no one else's buffer; on any failure no block is left over. It asks for 40 bytes and then, if the string is not empty, for its length. |
| Builders.StringNewBorrowed | src/value.c:189-207 | A new node that denotes the stretch of the buffer and owns none of it. |
| Builders.ListNew | src/value.c:209-224 | A new empty list, or nothing. |
| Builders.DictNew | src/value.c:276-291 | A new empty dictionary, or nothing. |
| Builders.ListAppend | src/value.c:257-274 | The list denotes its old items and then the child, whose blocks it now owns; on failure nothing changes and the child stays the caller's. It succeeds if and only if the list has fewer than 2^60 items and the allocator grants what `Requests.GrowPlanExactly` lists for their number. |
| DictStore.CompareKey | src/value.c:303-311 | The comparison inlined in the search decides the same order as the parser's. |
| DictStore.DictSearch | src/value.c:296-325 | Binary search returns the unique slot of the key, and whether the key is there. |
| DictStore.DictGet | src/value.c:423-435 | Null if and only if the map of the entries lacks the key; otherwise a complete subtree that denotes the map's value. |
| DictStore.ShiftUp | src/value.c:364-368 | The entries above the slot move up by one, the others stay. |
| DictStore.InsertBind | src/value.c:355-373 | The entry is inserted at the slot, or nothing changes, and the live blocks follow exactly. |
| DictStore.InsertKey | src/value.c:344-373 | The key is copied and the entry inserted, or the copy is given back and nothing changes; it asks for the length of the key, if it is not empty, and then for the growth of the entry array. |
| DictStore.ReplaceBind | src/value.c:336-342 | The old value's blocks are released, the child takes its place, the key block stays. |
| DictStore.DictSet | src/value.c:327-374 | The dictionary denotes the old one with the key set, all dropped blocks are released and no others; on failure nothing changes and the child stays the caller's. It succeeds if and only if the key is there (then nothing is asked for), or the dictionary has fewer than 2^59 entries and the allocator grants the length of the key and the growth of the entry array. |
| Cloning.Clone | src/value.c:457-532 | Under any pattern of allocation failures: either a fresh tree that denotes the same value, shares no block with anything that existed and points into no input buffer, or nothing and no block left over. It succeeds if and only if the allocator grants, in order, the sizes that the value determines (`Requests.CopiedLeaf`, `CopiedItem`, `CopiedEntry`). |
| Cloning.RepCompact | src/value.c:228-255 | Every tree on the heap has its containers within the limits, so no clone ever fires a size guard. |
| Cloning.CloneList | src/value.c:479-501 | The same for lists, with the partial copy released on failure. |
| Cloning.CloneDict | src/value.c:503-526 | The same for dictionaries, although they are rebuilt through set: the copies arrive in order, so each goes to the end. |
| Cloning.CloneEntry | src/value.c:509-523 | One turn of the loop: the clone is set under the same key, or the partial copy is as before and the clone is released. |
| Spine.CloseInto | src/parse_dom.c:152-167 | Closing a container changes nothing on the heap: the finished container already is the last child of the one below, with the same blocks in total. |
| Spine.OpenFrom | src/parse_dom.c:114-142 | A container attached while still empty can go on being filled in place. |
| Spine.CloseAll | src/parse_dom.c:223-226 | However many containers are open, what hangs from the root is one whole tree that owns every block of the partial parse. |
| Dom.AppendUnder | src/parse_dom.c:62-65 | A value appended to the innermost list keeps the whole unfinished tree and the account of live blocks in order, on success and on failure. |
| Dom.SetUnder | src/parse_dom.c:66-71 | A value set in the innermost dictionary under a key beyond all others goes to the end: the replacing branch of set is never taken. |
| Dom.DomState.SetPending | src/parse_dom.c:66-71 | The value goes to the end of the innermost dictionary under the pending key, or nothing changes. |
| Dom.DomState.AttachEntry | src/parse_dom.c:66-71 | The value lands under the pending key, which is used up, and the key flag is up again. |
| Dom.DomState.Attach | src/parse_dom.c:55-72 | The tree takes in exactly the delivered value, at the innermost open container or as the root; on failure the tree is as before and the value is still the caller's. |
| Dom.DomState.AttachOrDrop | src/parse_dom.c:81-85 | A new node is attached, or freed: in both cases the live blocks are those from before, those of the tree, and no other. |
| Dom.DomState.OnInt | src/parse_dom.c:74-86 | Stack, tree and live blocks step exactly as the abstract state does on an integer; a refused allocation leaves no stray node. |
| Dom.DomState.OnString | src/parse_dom.c:88-112 | The same for a string, which becomes the pending key exactly where a key is due and a borrowed value everywhere else. |
| Dom.DomState.AddString | src/parse_dom.c:101-111 | A string in value position borrows its bytes from the input. |
| Dom.DomState.OpenContainer | src/parse_dom.c:114-142 | The same for the start of a container; the frame array is never full. |
| Dom.DomState.OnEnd | src/parse_dom.c:152-167 | The same for the end of a container, which is always the innermost and of the right kind; no block is allocated or released. |
| Dom.DomState.Abandon | src/parse_dom.c:223-226 | After a failure in any state exactly the blocks from before the parse are live. |
| Handlers.FilterExactly | src/parse_sax.c:189-192 | Which function receives which event, constructor by constructor: an event reaches the functions present if and only if the function of its own kind is present. |
| Handlers.FilterOne | src/parse_sax.c:189-192 | With one function present, it receives exactly the events of its constructor, in order. |
| Handlers.FilterAll | src/parse_sax.c:189-192 | With all six present, nothing is left out. |
| Handlers.Callbacks.OfferUser | src/parse_sax.c:189-192 | The event is recorded and reaches the caller's function if and only if that function is present, whose answer is the status; a missing function counts as "go on". |
| Handlers.Callbacks.Dispatch | src/parse_dom.c:144-167 | One callback per kind of event, and each steps the builder as the abstract state steps. |
| Handlers.Callbacks.OfferDom | src/parse_dom.c:144-167 | Every legal event within the nesting cap is handled by the right callback and keeps the simulation; it fails if and only if a request was refused or the event met a full container. |
| Handlers.Callbacks.Offer | src/parse_sax.c:255-416 | Reporting a legal event steps the abstract state and keeps the tally: since the start, the builder has asked for exactly the sizes that the events determine, up to the first refusal, and it has failed if and only if one was refused or an event met a full container. |
| Sax.Parser.ParseUnsigned | src/parse_sax.c:105-133 | The digit loop, in 64-bit arithmetic without wrap-around, computes the number of the whole digit run, or the error and cursor defined on that run. |
| Sax.Parser.Accumulate | src/parse_sax.c:121-129 | The loop stops with an overflow at the first digit that pushes the value past the bound, and otherwise holds the value of the run. |
| Sax.Parser.ScanInt | src/parse_sax.c:137-187 | Sign, digits and closing byte: the 64-bit value or the error and its cursor. |
| Sax.Parser.ParseString | src/parse_sax.c:200-231 | The slice returned is the payload inside the input; the length check never wraps. |
| Sax.Parser.PushScope | src/parse_sax.c:237-248 | A new scope within the limit, or the nesting error; the outer scopes are untouched. |
| Sax.Parser.Report | src/parse_sax.c:189-192 | An event legal in the current state is delivered without disturbing cursor, depth or scopes. |
| Sax.Parser.ParseInt | src/parse_sax.c:137-193 | Follows the specified run for an integer and delivers it. |
| Sax.Parser.ParseValue | src/parse_sax.c:389-416 | Status, cursor and events are those of the specified run, or of its beginning up to the event a callback stopped at; depth is what it was and outer scopes are unchanged on every exit, and on success the abstract state has received exactly the value read. |
| Sax.Parser.ParseList | src/parse_sax.c:255-291 | The same for lists. |
| Sax.Parser.ParseItems | src/parse_sax.c:272-290 | The loop of the list: on every exit the scope is popped, and the run is the specified one. |
| Sax.Parser.ParseItem | src/parse_sax.c:285-289 | One turn of the list loop: one more item of the specified run, or the run's error. |
| Sax.Parser.ParseDict | src/parse_sax.c:326-386 | The same for dictionaries. |
| Sax.Parser.ParseDictKey | src/parse_sax.c:296-324 | The key is reported only if it exceeds the last one, and scope and abstract state agree that its value is due. |
| Sax.Parser.CheckOrder | src/parse_sax.c:306-315 | Duplicate if and only if equal to the last key, unsorted if and only if smaller, accepted otherwise and then greater. |
| Sax.Parser.ParseEntryValue | src/parse_sax.c:377-384 | After the nested value the saved scope is still the innermost one, and a key is due again. |
| Sax.Parser.ParseEntries | src/parse_sax.c:343-385 | The loop of the dictionary: on every exit the scope is popped, and the run is the specified one. |
| Sax.Parser.ParseKeyTurn | src/parse_sax.c:371-376 | A turn in which a key is due: one key of the specified run, or the run's error. |
| Sax.Parser.ParseValueTurn | src/parse_sax.c:377-384 | A turn in which a value is due: one entry more of the specified run, or the run's error. |
| Parsing.ParseSax | src/parse_sax.c:420-459 | The public parser, on any stretch of a buffer, follows the decoder function on that stretch, clamped limit included; the consumed count never exceeds the size. |
| Parsing.ParseWith | src/parse_sax.c:420-459 | With the caller's functions: they receive exactly the events of the uninterrupted run up to and including the first one not answered with "go on"; that answer is then the status and the cursor at that event the consumed count. All answers before the last were "go on", and if the last one was too, status and consumed count are those of the whole run. The events are well bracketed with keys before values. On accepted input with one function present, it receives exactly the events of its constructor in the value's events, and with all present, all of them. |
| Parsing.DeliveredInTurn | src/parse_sax.c:189-192 | The functions are never called again after an answer other than "go on", and the answer to the run is the last one. |
| Parsing.StopUnique | src/parse_sax.c:189-192 | Where a run stopped is where the first such answer was given. |
| Parsing.AcceptedEvents | include/bencode/bencode.h:24-28 | On success the events are exactly those of the value, legal one by one, and running them gives the value back. |
| Parsing.BuildTree | src/parse_dom.c:196-213 | The builder ends with the decoded value as its whole tree and the decoder's status, or with a partial tree; "out of memory" if and only if a request was refused or an event met a full container; the sizes asked for are those that the events of the run determine. |
| Parsing.Parse | src/parse_dom.c:169-230 | Success with the tree of the decoded value, which owns exactly the new live blocks and borrows from the input only; otherwise no output and exactly the old live blocks. "Out of memory" if and only if the allocator does not grant, in order, the sizes that the events of the run determine (40 bytes for each value, the keys, and the arrays of `Requests.GrowPlanExactly`), or an event met a full container, which no input up to 2^59 bytes brings about. In every other case status and cursor are the decoder's, except that strict mode turns success with bytes left over into "unexpected byte". |
| Parsing.RoomyExactly | src/value.c:228-255 | A readable encoding meets a full container in a parse if and only if its value has a list of more than 2^60 items or a dictionary of more than 2^59 entries. |
| Parsing.EncodingRoomy | src/value.c:228-255 | The encoding of a value within the limits meets no full container, even if it is nested too deeply to be read to its end. |
| Parsing.TooWide | include/bencode/bencode.h:115-116 | The text of a list of 2^60 + 1 zeros is accepted by the decoder and fires the size guard of the tree builder. |
| Parsing.SmallInputsAreRoomy | src/value.c:228-255 | No input up to 2^59 bytes, accepted or not, meets a full container. |
| Emit.CapDoubles | src/emit.c:164-170 | A capacity below 2^63 doubles without leaving 64 bits. |
| Chunks.FlatChunks | src/emit.c:62-110 | The chunks of a value, joined, are its encoding. |
| Chunks.FlatShort | src/emit.c:29-34 | Without its last chunk, whatever has been sent of them is a proper prefix of the whole. |
| Emit.AllocSink.NewCapacity | src/emit.c:162-170 | The doubling loop ends without wrap-around with the first doubling that suffices, and fails if and only if the total exceeds 2^63. |
| Emit.AllocSink.Grow | src/emit.c:162-181 | One request, of the first doubling of the capacity (or of 4096) that suffices, unless that exceeds 2^63; the data move to the new block and the old one is given back, or nothing changes. |
| Emit.AllocSink.Append | src/emit.c:155-186 | The chunk follows what is stored, or nothing stored is lost and every later call fails too. It asks for a block if and only if the chunk does not fit and the total is at most 2^63, and then for the capacity of `Requests.BufferCapExactly`; it succeeds if and only if the sink has not failed before, nothing was refused and the total is at most 2^63. |
| Emit.Sink.Send | src/emit.c:29-34 | The chunk is accepted or refused as the sink answers; a chunk is never empty. |
| Emit.EmitBytes | src/emit.c:29-34 | The chunk is sent, whole; an empty chunk is not sent. |
| Emit.EmitInt | src/emit.c:36-45 | The canonical text of the integer is sent as one chunk. |
| Emit.EmitString | src/emit.c:47-60 | The header and then the bytes are sent, up to the first chunk that is refused. |
| Emit.EmitValue | src/emit.c:96-110 | For any tree that denotes a well-formed value, exactly its chunks are sent, in order, up to the first that is refused; by `Chunks.FlatChunks` they spell the encoding. |
| Emit.EmitList | src/emit.c:62-74 | The same for lists. |
| Emit.EmitDict | src/emit.c:76-94 | The same for dictionaries. |
| Codec.EmitWith | src/emit.c:114-119 | For any sink: it receives the chunks of the value in order up to the first that it refuses; no chunk is empty, the chunks accepted before a refusal spell a proper prefix of the encoding, and without a refusal exactly the encoding. |
| Codec.EmitToAlloc | src/emit.c:188-215 | One new block with exactly the encoding, or no output and no block; out of memory if and only if the allocator does not grant, in order, the buffer sizes that the chunks of the value determine, or the encoding has more than 2^63 bytes. |
| Codec.EmitWithTail | src/emit.c:188-215 | One block with the encoding and the bytes behind it, or nothing. |
| Codec.ParseThenEmit | tests/test_bencode.c:604-620 | Parse under any options, emit to any sink: without a refusal the sink has exactly the consumed bytes of the input, otherwise a proper prefix of them; nothing leaks. It asks for what the parse alone asks for. |
| Codec.RoundTrip | src/main.c:328-359 | The mismatch answer never occurs; success if and only if no request was refused, the whole input is one canonical value of at most 2^63 bytes, and no event meets a full container; every block is given back. It asks for what the parse asks for and then, if the input is one canonical value, for the buffers of its chunks. |
| Codec.Compare | src/main.c:337-357 | Emitting a tree and comparing with the text it encodes never finds a difference. |
| Codec.EmitThenParse | include/bencode/bencode.h:467-471 | A tree emitted, put in front of any bytes and parsed again: the parse consumes exactly the encoding and the new tree denotes the same value, borrowing from the buffer only; a tree deeper than the limit gets the nesting error; "out of memory" if and only if a request was refused or the encoding exceeds 2^63 bytes. On failure no block is left over, on success exactly buffer and tree. The sizes asked for are the buffers, the joint block, and those of the parse. |
| Codec.Detach | include/bencode/bencode.h:302-304 | After a clone, with any allocator, the source tree can be freed and the input overwritten; the clone still denotes the same value. It fails only when a request was refused. It asks for the sizes of a clone. |

## Left out

- Cloning.Clone: the nodes of the source come from one allocator, which need not be the clone's.
- DictStore.DictSet: the child comes from the dictionary's allocator; the key is passed as a byte string, so a key pointer into the dictionary itself is not covered; the child must share no block with the dictionary, which the interface demands without checking.
- Emit.EmitValue: the tree is required to denote a well-formed value, which `Dicts.BuildersStayWellFormed` shows for everything append and set can build.
- Tree.Free: all nodes of a tree come from one allocator; mixing allocators within a tree is not modelled.
- Builders.ListAppend: the child comes from the list's allocator, for the same reason.
- DictStore.InsertBind: the child comes from the dictionary's allocator, for the same reason.
- DictStore.ReplaceBind: the child comes from the dictionary's allocator, for the same reason.
- Memory.Allocator.Release: that no released block is read again is not stated; what is stated is that no released block is part of any tree or buffer still in use.
- Handlers.Callbacks.OfferUser: the caller's function answers by an arbitrary function of the events it has received; other effects of callbacks are not modelled.
- The command-line tool except the round-trip command: file reading, arguments, pretty printing, exit codes.
- `bencode_emit_to_file` and stdio; the sink with arbitrary answers covers its logic.
- The C library: `snprintf`, `memcmp`, `memcpy`, `memmove`, `malloc` and `free` are small specified members; their own implementation is not part of this model.
- NULL arguments, incomplete allocator tables, `BENCODE_INVALID` and accessors on a wrong type: each is one branch that returns an error at once.
- Status names, version, export macros, build scripts, benchmarks, examples.
- Pointer arithmetic, const casts, struct layout (element sizes are constants of a 64-bit build) and threads.
- Exhaustion of the C stack by very deep hand-built trees in emit, clone and free.
