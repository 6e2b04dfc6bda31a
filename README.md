# A verified model of the tweedegolf Rust training exercises

The Rust training repository holds many small exercises. This project models
the pieces that are sequential, self-contained logic, one Dafny module per
source file:

- **`DnsDecode`** (`dns.dfy`): `decode_dns_name`. It reads a domain name in
  DNS wire format, the length-prefixed labels of sections 3.1 and 4.1.4 of
  RFC 1035. Length octets of 0x40 and up are rejected, and so is a buffer
  that grows past 256 octets. The final trailing dot is popped.
- **`Aggregator`** (`aggregator.dfy`) with `Measurements`
  (`measurements.dfy`): one pass of the measurement data sink's database loop,
  in both `database::run` and the `database` function of the server binary.
  It drains the channel without blocking and groups by `room_id` in a
  `BTreeMap`. It then emits one row per room: the fire total, the average
  temperature and humidity, and the time of the pass.
- **`Cli`** (`cli.dfy`): the device commander's `CommandParser`. It splits a
  line on single spaces, tries `led` first and `hello` only on
  `CommandNotFound`, and then builds the `ServerToDevice` message.
- **`Dna`** (`dna.dfy`): the Python DNA utilities. These are `count_kmers`,
  `assert_valid_dna`, `Sequence`, `decode_orf` and `all_orfs`.
- **`Compass`** (`compass.dfy`): the LED compass. It covers `led_index`, the
  sector match of `from_xy`, and the `Dial` with its row and column pin
  arrays, `clear`, `set_light_direction` and the `run` loop.
- **`Uarte`** (`uarte.dfy`): the firmware's UARTE wrapper. It covers the TX
  handshake over TXSTARTED, ENDTX and `endtx_raised`, the event poll, the
  received chunk, and the take-once RX buffer flag.
- **`Strompy`** (`strompy.dfy`): the matrix jobs of the strompy extension:
  - the `MatrixBuf` shape arithmetic;
  - `eval`, and `exec` as a short-circuiting fold;
  - the streaming JSON deserialisers, over a token sequence;
  - the row conversion;
  - the shape dispatch of `matrix_op!`.
- **`Hello`** (`hello.dfy`): `fact`, the `reduce(Mul::mul)` factorial.
- **`NodeSimulator`** (`node_simulator.dfy`): the node simulator's
  `handle_keep_alive` deadline rule, the deterministic fields of `measure`,
  and the failure count at the end of `main`.
- **`Wrappers`** and **`Ints`** (`wrappers.dfy`): `Option`, `Result`, `Run`
  and fixed-width integer types.

Rust panics and Python exceptions are modelled as results:
- `Run.Abort` in most modules;
- `Res.Panic` in `Strompy`, next to its error results.

Clocks, random samples, the codon table and the matrix arithmetic are
parameters. The mutating code is imperative Dafny:
- the growing `buf` of the DNS decoder;
- the loops of the aggregator, `count_kmers`, `decode_orf` and `all_orfs`;
- the dial's pin arrays;
- the UARTE register fields;
- the `&mut last_keep_alive`.

Each such method is proved equal to a specification function. The properties
are lemmas about those functions.

## Model

| member | source | states |
|---|---|---|
| DnsDecode.PopLast | exercises/3-crate-engineering/2-testing/1-dns-decode/src/lib.rs:22 | removes exactly the last octet of a non-empty buffer and leaves an empty one empty |
| DnsDecode.Walk | exercises/3-crate-engineering/2-testing/1-dns-decode/src/lib.rs:8-20 | starting from a buffer of at most 256 octets, an accepted name is shorter than 256 octets |
| DnsDecode.Decode | exercises/3-crate-engineering/2-testing/1-dns-decode/src/lib.rs:1-24 | empty input gives None; a first length octet of 0x40 or more gives None; an accepted name has at most 255 octets |
| DnsDecode.DecodeDnsName | exercises/3-crate-engineering/2-testing/1-dns-decode/src/lib.rs:1-24 | the loop that reslices `src` and extends `buf` returns exactly what `Decode` specifies, including the panic when `src` runs out before a zero octet |
| DnsDecode.DottedSize | exercises/3-crate-engineering/2-testing/1-dns-decode/src/lib.rs:14-15 | the buffer after the labels holds every label plus one dot each |
| DnsDecode.WalkEncoded | exercises/3-crate-engineering/2-testing/1-dns-decode/src/lib.rs:8-20 | from any buffer of at most 256 octets (every buffer the loop reaches), encoded labels end in the buffer plus the dotted labels with the last dot popped, or in None once the buffer would pass 256 octets |
| DnsDecode.DecodeEncode | exercises/3-crate-engineering/2-testing/1-dns-decode/src/lib.rs:1-24 | round trip: the encoding of labels of 1 to 63 octets decodes to the labels joined by dots when they fit in 256 octets with their dots, and to None otherwise; trailing octets never matter |
| DnsDecode.WalkAccepted | exercises/3-crate-engineering/2-testing/1-dns-decode/src/lib.rs:8-20 | every input the loop accepts is the encoding of valid labels followed by unread octets, and the name is the buffer's contents |
| DnsDecode.DecodeAccepted | exercises/3-crate-engineering/2-testing/1-dns-decode/src/lib.rs:1-24 | soundness: an accepted input is an encoding of valid labels that fit, plus a suffix, and the result is those labels joined by dots |
| DnsDecode.DecodeIgnoresTrailing | exercises/3-crate-engineering/2-testing/1-dns-decode/src/lib.rs:8 | octets after the zero length octet are never read: appending input keeps an accepted result |
| DnsDecode.WalkUnterminated | exercises/3-crate-engineering/2-testing/1-dns-decode/src/lib.rs:8-19 | labels that end exactly at the end of the input, without a zero octet, make the next `src[0]` index an empty slice |
| DnsDecode.DecodeUnterminated | exercises/3-crate-engineering/2-testing/1-dns-decode/src/lib.rs:8-19 | a non-empty unterminated name that fits the buffer panics |
| DnsDecode.SimpleName | exercises/3-crate-engineering/2-testing/1-dns-decode/src/lib.rs:37-41 | `\x06google\x03com\0` decodes to `google.com` |
| DnsDecode.RootName | exercises/3-crate-engineering/2-testing/1-dns-decode/src/lib.rs:8-23 | a lone zero octet decodes to the empty name |
| DnsDecode.MaximumLength | exercises/3-crate-engineering/2-testing/1-dns-decode/src/lib.rs:43-58 | sixteen labels of fifteen octets are accepted as a 255-octet name |
| DnsDecode.TooLongDomain | exercises/3-crate-engineering/2-testing/1-dns-decode/src/lib.rs:67-71 | 150 one-octet labels give None |
| DnsDecode.TooLongInnerPart | exercises/3-crate-engineering/2-testing/1-dns-decode/src/lib.rs:61-65 | a length octet of 0x40 gives None |
| DnsDecode.TooLongRun | exercises/3-crate-engineering/2-testing/1-dns-decode/src/lib.rs:73-77 | `\x05abc\0`, a label running past the input, gives None |
| DnsDecode.MissingTerminator | exercises/3-crate-engineering/2-testing/1-dns-decode/src/lib.rs:8-19 | `\x01a` panics on the empty slice |
| Aggregator.EntryPush | exercises/4-multitasking/3-asynchronous-multitasking/3-measurement-data-sink/src/database.rs:29 | `entry(room).or_default().push(m)`: only `m`'s room changes, gaining `m` at the end; keys stay strictly ascending; no vector becomes empty |
| Aggregator.Grouped | exercises/4-multitasking/3-asynchronous-multitasking/3-measurement-data-sink/src/database.rs:27-30 | the map after filing a queue has strictly ascending keys and non-empty vectors |
| Aggregator.GroupedIsByRoom | exercises/4-multitasking/3-asynchronous-multitasking/3-measurement-data-sink/src/database.rs:27-30 | each room's vector is exactly that room's drained measurements, in queue order |
| Aggregator.GroupedEntries | exercises/4-multitasking/3-asynchronous-multitasking/3-measurement-data-sink/src/database.rs:43-52 | every entry is non-empty, so `cnt` is never zero; it holds only its own room's measurements, so the `assert_eq!` never fails |
| Aggregator.GroupedCount | exercises/4-multitasking/3-asynchronous-multitasking/2-measurement-data-sink/src/bin/server.rs:89 | `measurement_count` equals the number of measurements drained |
| Aggregator.RowOf | exercises/4-multitasking/3-asynchronous-multitasking/3-measurement-data-sink/src/database.rs:43-52 | no contract; the row `Aggregator.Summarize` computes, tied to every pass by `Aggregator.PassRows` |
| Aggregator.Summarize | exercises/4-multitasking/3-asynchronous-multitasking/3-measurement-data-sink/src/database.rs:43-52 | returns iff every measurement is of the room (else the assertion panics); the row holds the exact fire total and the sums divided by the count |
| Aggregator.RowsOf | exercises/4-multitasking/3-asynchronous-multitasking/3-measurement-data-sink/src/database.rs:35-55 | one row per map entry, in entry order, each the summary of that entry |
| Aggregator.EmitRows | exercises/4-multitasking/3-asynchronous-multitasking/3-measurement-data-sink/src/database.rs:35-55 | the row loop returns iff every entry holds only its own room's measurements, and then emits `RowsOf` |
| Aggregator.PassRows | exercises/4-multitasking/3-asynchronous-multitasking/3-measurement-data-sink/src/database.rs:24-55 | the rows of a pass satisfy the independent description `IsPassOutput`: strictly ascending rooms, each an occurring room, every occurring room covered, and each row the summary of exactly that room's measurements |
| Aggregator.GroupedRowsArePassOutput | exercises/4-multitasking/3-asynchronous-multitasking/3-measurement-data-sink/src/database.rs:27-55 | the rows of the grouped map are a correct pass output |
| Aggregator.RowsOrdered | exercises/4-multitasking/3-asynchronous-multitasking/3-measurement-data-sink/src/database.rs:35 | the `BTreeMap` iteration emits rows in strictly ascending room order |
| Aggregator.RowsSummarize | exercises/4-multitasking/3-asynchronous-multitasking/3-measurement-data-sink/src/database.rs:36-52 | each row's room occurs in the queue, and the row summarizes that room's measurements |
| Aggregator.RowsCover | exercises/4-multitasking/3-asynchronous-multitasking/3-measurement-data-sink/src/database.rs:28-35 | every room that occurs in the queue has a row |
| Aggregator.Receiver.constructor | exercises/4-multitasking/3-asynchronous-multitasking/3-measurement-data-sink/src/database.rs:16 | the receiver holds the queued measurements |
| Aggregator.Receiver.TryRecv | exercises/4-multitasking/3-asynchronous-multitasking/2-measurement-data-sink/src/bin/server.rs:83 | takes the oldest queued measurement; on an empty queue it returns nothing and does not block |
| Aggregator.DrainRooms | exercises/4-multitasking/3-asynchronous-multitasking/2-measurement-data-sink/src/bin/server.rs:82-85 | the `try_recv` loop empties the queue and files every queued measurement, in order, into the grouped map |
| Aggregator.AggregatePass | exercises/4-multitasking/3-asynchronous-multitasking/2-measurement-data-sink/src/bin/server.rs:79-117 | one pass empties the queue and emits exactly `PassRows` of what was queued, for the `now` captured first |
| Aggregator.PassRoomIds | exercises/4-multitasking/3-asynchronous-multitasking/3-measurement-data-sink/src/database.rs:35 | the room ids of a pass are strictly ascending and are exactly the rooms that occur |
| Aggregator.PassRowCount | exercises/4-multitasking/3-asynchronous-multitasking/3-measurement-data-sink/src/database.rs:27-35 | exactly one row per distinct room among the drained measurements |
| Aggregator.PassTimestamp | exercises/4-multitasking/3-asynchronous-multitasking/3-measurement-data-sink/src/database.rs:24-37 | every row of a pass carries the same `now` |
| Aggregator.PassOutputUnique | exercises/4-multitasking/3-asynchronous-multitasking/3-measurement-data-sink/src/database.rs:24-55 | the drained queue and `now` determine the rows of a pass |
| Aggregator.EmptyWindow | exercises/4-multitasking/3-asynchronous-multitasking/3-measurement-data-sink/src/database.rs:28-35 | an empty drain produces no rows |
| Aggregator.SingleMeasurement | exercises/4-multitasking/3-asynchronous-multitasking/3-measurement-data-sink/src/database.rs:36-52 | a room with one measurement gets that measurement's own values |
| Aggregator.TwoSensorsOneRoom | exercises/4-multitasking/3-asynchronous-multitasking/3-measurement-data-sink/src/database.rs:35-52 | two readings in room 5 give the single row 21.0 / 0.5 / 1 |
| Cli.Parse | exercises/B5/cli/src/cmd.rs:36-52 | no contract; specified by `Cli.ParseLedStatus`, `Cli.LedNeverFallsThrough`, `Cli.HelloIsSayHello`, `Cli.NotFoundIff` and `Cli.ParseFormat` |
| Cli.ParseLed | exercises/B5/cli/src/cmd.rs:72-101 | no contract; specified by `Cli.ParseLedStatus` and `Cli.LedNeverFallsThrough` |
| Cli.ParseHello | exercises/B5/cli/src/cmd.rs:117-130 | no contract; specified by `Cli.HelloIsSayHello` and `Cli.NotFoundIff` |
| Cli.Split | exercises/B5/cli/src/cmd.rs:37 | `split(' ')` always yields at least one piece, so the first `next()` is never None |
| Cli.JoinSplit | exercises/B5/cli/src/cmd.rs:37 | rejoining the pieces with single spaces gives back the line |
| Cli.SplitJoin | exercises/B5/cli/src/cmd.rs:37 | words without spaces, joined by single spaces, split back into the same words |
| Cli.SplitConcat | exercises/B5/cli/src/cmd.rs:37 | splitting at a space splits both sides independently |
| Cli.ParseU8 | exercises/B5/cli/src/cmd.rs:79 | `str::parse::<u8>`: accepted text starts with `+` or a digit; fully characterised by `Cli.ParseU8Iff` |
| Cli.ParseU8Iff | exercises/B5/cli/src/cmd.rs:79 | for every text and every `u8` value: the text parses to that value iff it is an optional `+`, any number of leading zeros, and the value's decimal text |
| Cli.ParseU8Accepted | exercises/B5/cli/src/cmd.rs:79 | every accepted text is an optional `+`, leading zeros and the decimal text of the returned value |
| Cli.ParseU8Padded | exercises/B5/cli/src/cmd.rs:79 | every optional `+`, leading zeros and decimal text of a `u8` value is accepted with that value |
| Cli.ParseU8Digits | exercises/B5/cli/src/cmd.rs:79 | digit text of a value up to 255 is accepted, with or without a `+` |
| Cli.ParseShowU8 | exercises/B5/cli/src/cmd.rs:79 | every `u8` parses back from its decimal text |
| Cli.ParseSmallNumbers | exercises/B5/cli/src/cmd.rs:79 | `u8` parsing accepts `0`, `1`, `4`, `5` and `+2`, and rejects the empty text and `-1` |
| Cli.ParseLedStatus | exercises/B5/cli/src/cmd.rs:76-94 | a line is `LedStatus(n, on)` iff its words are `led`, the text of `n` with 1 <= n <= 4, and `on`/`off` |
| Cli.LedNeverFallsThrough | exercises/B5/cli/src/cmd.rs:90-97 | a first word `led` gives an LED command or `InvalidArgs`, never `CommandNotFound`, so `SayHello` is not tried |
| Cli.HelloIsSayHello | exercises/B5/cli/src/cmd.rs:122-126 | a first word `hello` gives `SayHello` |
| Cli.NotFoundIff | exercises/B5/cli/src/cmd.rs:90-128 | `CommandNotFound` iff the first word is neither `led` nor `hello` |
| Cli.ExtraWordsIgnored | exercises/B5/cli/src/cmd.rs:76-88 | words after those a command reads do not change the result |
| Cli.LedOneOn | exercises/B5/cli/src/cmd.rs:94 | `led 1 on` is `LedStatus(1, true)` |
| Cli.LedFourOff | exercises/B5/cli/src/cmd.rs:94 | `led 4 off` is `LedStatus(4, false)` |
| Cli.LedPlusTwo | exercises/B5/cli/src/cmd.rs:79 | `led +2 on` is `LedStatus(2, true)`, since `u8` text may carry a `+` |
| Cli.HelloThere | exercises/B5/cli/src/cmd.rs:122-126 | `hello` and `hello there` are `SayHello` |
| Cli.LedTrailingWord | exercises/B5/cli/src/cmd.rs:77-94 | `led 1 on x` is `LedStatus(1, true)` |
| Cli.UnknownLines | exercises/B5/cli/src/cmd.rs:124-128 | the empty line and `foo` give `CommandNotFound` |
| Cli.MissingArguments | exercises/B5/cli/src/cmd.rs:97 | `led` and `led 1` give `InvalidArgs` |
| Cli.LedOutOfRange | exercises/B5/cli/src/cmd.rs:79-97 | `led N s` gives `InvalidArgs` for every N outside 1..=4 and every state word: 0 and 5..=255 fail the range, larger values do not parse |
| Cli.LedNegative | exercises/B5/cli/src/cmd.rs:79-97 | `led -w s`, for any words `w` and `s`, gives `InvalidArgs`: a `-` is never `u8` text |
| Cli.LedBadState | exercises/B5/cli/src/cmd.rs:81-97 | `led 1 maybe` gives `InvalidArgs` |
| Cli.DoubleSpace | exercises/B5/cli/src/cmd.rs:37-97 | `led  1 on` splits with an empty word in the number's place and gives `InvalidArgs` |
| Cli.TooBigForU8 | exercises/B5/cli/src/cmd.rs:79-97 | `256` is not a `u8`, so `led 256 on` gives `InvalidArgs` |
| Cli.BuildMessage | exercises/B5/cli/src/cmd.rs:103-137 | an LED command sets only `set_led_status` and `SayHello` sets only `say_hello`, on top of the default message; `send_acc_data` stays false |
| Cli.MessageRoundTrip | exercises/B5/cli/src/cmd.rs:103-137 | every built message names exactly the command it was built from |
| Cli.ParseFormat | exercises/B5/cli/src/cmd.rs:36-101 | the text form of every command the parser can return parses back to that command |
| Dna.PySlice | exercises/7-rust-for-data-science/1-rust-from-python/main.py:36 | Python slicing: never longer than the string, and equal to the Dafny slice for in-range bounds |
| Dna.KmerWindows | exercises/7-rust-for-data-science/1-rust-from-python/main.py:35-36 | there are `len - k + 1` windows, or none when `k` exceeds the length; window `i` is `sequence[i:i+k]` and has length `k` |
| Dna.Tally | exercises/7-rust-for-data-science/1-rust-from-python/main.py:34-38 | no contract; specified by `Dna.TallyIsMultiset` |
| Dna.TallyIsMultiset | exercises/7-rust-for-data-science/1-rust-from-python/main.py:34-38 | the counting dictionary is the multiset of the counted words: the same keys, and each count the number of occurrences |
| Dna.CountKmers | exercises/7-rust-for-data-science/1-rust-from-python/main.py:18-40 | the `assert len(kmer) == k` fails iff `k` is negative; otherwise the result is the tally of all windows of length `k` |
| Dna.KmerCounts | exercises/7-rust-for-data-science/1-rust-from-python/main.py:34-40 | every key has length `k`; the counts add up to `len - k + 1`; the dictionary is empty when `k` exceeds the length |
| Dna.Kmers | exercises/7-rust-for-data-science/1-rust-from-python/main.py:71-72 | `Sequence.kmers`: the same outcome as `count_kmers` on the held string, with the default `k = 3` |
| Dna.DefaultKmers | exercises/7-rust-for-data-science/1-rust-from-python/main.py:18-40 | `kmers()` with no `k` never raises and counts the three-mers: every key has length 3 |
| Dna.OneMers | exercises/7-rust-for-data-science/1-rust-from-python/test_kmers.py:6-8 | `AAAATTTTGGGGCCCC` has four each of A, T, G and C |
| Dna.TwoMers | exercises/7-rust-for-data-science/1-rust-from-python/test_kmers.py:11-13 | the two-mers of `AAAATTTTGGGGCCCC` are exactly those the test lists, with its counts |
| Dna.AssertValidDna | exercises/7-rust-for-data-science/1-rust-from-python/main.py:44-46 | `ValueError` iff some character is not one of A, T, G, C |
| Dna.ValidationExamples | exercises/7-rust-for-data-science/1-rust-from-python/test_validation.py:6-13 | `ATGC` and the empty string pass; `_` and a space fail |
| Dna.ValidConcat | exercises/7-rust-for-data-science/1-rust-from-python/main.py:45 | a concatenation is valid iff both parts are |
| Dna.NewSequence | exercises/7-rust-for-data-science/1-rust-from-python/main.py:53-63 | a `Sequence` is built iff the string is valid DNA, and it holds that string |
| Dna.Translate | exercises/7-rust-for-data-science/1-rust-from-python/main.py:86-94 | a successful decoding uses at most one triple per symbol, and at least one symbol once a full triple exists |
| Dna.TranslateSymbols | exercises/7-rust-for-data-science/1-rust-from-python/main.py:89-94 | symbol `j` is the table entry of triple `j`; all symbols before the last are amino acids; decoding ends at the first STOP or at the end of the input |
| Dna.TranslateAborts | exercises/7-rust-for-data-science/1-rust-from-python/main.py:89 | the unpacking error happens iff the length is not a multiple of three and no full triple is a STOP |
| Dna.DecodeOrf | exercises/7-rust-for-data-science/1-rust-from-python/main.py:85-96 | the loop that appends symbols and breaks at STOP returns the frame `OrfAt` gives |
| Dna.OrfAt | exercises/7-rust-for-data-science/1-rust-from-python/main.py:85-96 | no contract; specified by `Dna.DecodeOrf`, `Dna.OrfBounds` and `Dna.TranslateSymbols` |
| Dna.OrfBounds | exercises/7-rust-for-data-science/1-rust-from-python/main.py:96 | `end == start + 3 * len(decoded)`, and the frame does not run past the sequence |
| Dna.DecodeOne | exercises/7-rust-for-data-science/1-rust-from-python/test_decoding.py:6-12 | `GCTTAA` decodes to `A*` with end 6 |
| Dna.OrfAtAtg | exercises/7-rust-for-data-science/1-rust-from-python/main.py:102-104 | a frame decoded at an `ATG` ends at least three positions on, inside the sequence, so the scan advances |
| Dna.OrfsFrom | exercises/7-rust-for-data-science/1-rust-from-python/main.py:99-107 | no contract; specified by `Dna.AllOrfs`, `Dna.OrfsStartAtAtg`, `Dna.OrfsDisjoint` and `Dna.OrfsCoverAtg` |
| Dna.OrfsStep | exercises/7-rust-for-data-science/1-rust-from-python/main.py:102-106 | a frame found at `i` is yielded first, and the scan resumes at its end |
| Dna.AllOrfs | exercises/7-rust-for-data-science/1-rust-from-python/main.py:99-107 | the `while` scan yields exactly the frames `OrfsFrom` specifies, and stops at the first exception |
| Dna.OrfsStartAtAtg | exercises/7-rust-for-data-science/1-rust-from-python/main.py:102-105 | every frame starts at an `ATG`, is what `decode_orf` gives there, and lies inside the sequence |
| Dna.OrfsDisjoint | exercises/7-rust-for-data-science/1-rust-from-python/main.py:103-105 | frames do not overlap: each starts at or after the end of the one before |
| Dna.OrfsCoverAtg | exercises/7-rust-for-data-science/1-rust-from-python/main.py:100-107 | no `ATG` is skipped: each one starts a frame or lies inside one |
| Dna.FirstFrame | exercises/7-rust-for-data-science/1-rust-from-python/test_decoding.py:35-38 | the frame at 0 of `ATGGCTTAAATGAATTAG` is (0, 9, `MA*`) |
| Dna.SecondFrame | exercises/7-rust-for-data-science/1-rust-from-python/test_decoding.py:40-43 | the frame at 9 is (9, 18, `MN*`) |
| Dna.TwoFrames | exercises/7-rust-for-data-science/1-rust-from-python/test_decoding.py:30-46 | the scan yields exactly those two frames, then stops |
| Compass.Clockwise | exercises/8-embedded/3-async-on-embedded/1-compass/src/dial.rs:57-73 | sector `k` is the compass point at clockwise position `k` from North, never `None` |
| Compass.ClockwiseInverse | exercises/8-embedded/3-async-on-embedded/1-compass/src/dial.rs:57-73 | every compass point is the direction of exactly its own sector |
| Compass.LedIndex | exercises/8-embedded/3-async-on-embedded/1-compass/src/dial.rs:30-50 | every direction's LED lies in the 5x5 grid |
| Compass.LedPlacement | exercises/8-embedded/3-async-on-embedded/1-compass/src/dial.rs:31-48 | the sixteen points sit on the border; only `None` maps to the centre (2, 2) |
| Compass.LedIndexInjective | exercises/8-embedded/3-async-on-embedded/1-compass/src/dial.rs:31-48 | no two directions share an LED |
| Compass.RingNeighbours | exercises/8-embedded/3-async-on-embedded/1-compass/src/dial.rs:31-47 | consecutive compass points light neighbouring LEDs, so the points go once round the border |
| Compass.SectorDirection | exercises/8-embedded/3-async-on-embedded/1-compass/src/dial.rs:57-75 | with overflow checks (a debug build): `(part + 4) % 16` picks the point at that clockwise position, never `None`; the `u32` addition panics iff it overflows |
| Compass.SectorDirectionWrapping | exercises/8-embedded/3-async-on-embedded/1-compass/src/dial.rs:57-75 | without overflow checks (a release build): `part + 4` wraps, yet the point is still the one at clockwise position `(part + 4) % 16`, never `None` |
| Compass.BuildsAgree | exercises/8-embedded/3-async-on-embedded/1-compass/src/dial.rs:57-75 | both builds pick the same point wherever the checked addition does not panic; where it panics, the wrapping build picks the point of the wrapped sum |
| Compass.SectorWraps | exercises/8-embedded/3-async-on-embedded/1-compass/src/dial.rs:54-62 | both ends of the rounded angle range, 0 and 16, give `East` |
| Compass.SectorsDistinct | exercises/8-embedded/3-async-on-embedded/1-compass/src/dial.rs:57-73 | sixteen consecutive sectors give sixteen different directions |
| Compass.OneLedLit | exercises/8-embedded/3-async-on-embedded/1-compass/src/dial.rs:149-154 | while the dial is lit, exactly the LED of its direction has a high row and a low column; while cleared, none has |
| Compass.Next | exercises/8-embedded/3-async-on-embedded/1-compass/src/dial.rs:168-186 | no contract; specified by `Compass.Dial.Step`, `Compass.BlinkParity` and `Compass.LastReceived` |
| Compass.RunFrom | exercises/8-embedded/3-async-on-embedded/1-compass/src/dial.rs:160-187 | no contract; specified by `Compass.Dial.Run`, `Compass.BlinkParity` and `Compass.LastReceived` |
| Compass.BlinkParity | exercises/8-embedded/3-async-on-embedded/1-compass/src/dial.rs:165-186 | `is_on` after a run is its start value flipped once per tick |
| Compass.LastReceived | exercises/8-embedded/3-async-on-embedded/1-compass/src/dial.rs:168-177 | the direction shown is the last one received, or the initial one if none was received |
| Compass.Dial.constructor | exercises/8-embedded/3-async-on-embedded/1-compass/src/dial.rs:120-141 | `new`: direction `None`, all rows low and all columns high |
| Compass.Dial.Clear | exercises/8-embedded/3-async-on-embedded/1-compass/src/dial.rs:144-147 | all rows low and all columns high |
| Compass.Dial.SetLightDirection | exercises/8-embedded/3-async-on-embedded/1-compass/src/dial.rs:149-154 | only row `led_index(d).0` is high and only column `led_index(d).1` is low |
| Compass.Dial.Step | exercises/8-embedded/3-async-on-embedded/1-compass/src/dial.rs:168-186 | a tick toggles `is_on` and a new direction replaces the old one; receiving the current direction changes no pin; otherwise the pins show the direction when on and nothing when off |
| Compass.Dial.Run | exercises/8-embedded/3-async-on-embedded/1-compass/src/dial.rs:160-187 | after any finite sequence of events, direction and `is_on` are `RunFrom` of the events, and a dial that started cleared shows its state |
| Uarte.StartTxFlags | exercises/B5/firmware/src/uarte.rs:113-126 | refused iff TXSTARTED is set and `endtx_raised` is not; an accepted start clears TXSTARTED and `endtx_raised` and keeps ENDRX and ENDTX |
| Uarte.ClearEvent | exercises/B5/firmware/src/uarte.rs:147-163 | ENDRX is reported first and only it is cleared; otherwise ENDTX is reported, cleared and sets `endtx_raised`; with neither, nothing changes |
| Uarte.ClearEventProgress | exercises/B5/firmware/src/uarte.rs:147-163 | each reported event clears exactly one pending event, and `endtx_raised` is set only by ENDTX |
| Uarte.Drain | exercises/B5/firmware/src/uarte.rs:147-163 | polling until nothing is reported leaves no event pending |
| Uarte.TxHandshake | exercises/B5/firmware/src/uarte.rs:113-163 | a running transmission refuses a new one; after ENDTX and a poll, a new one starts |
| Uarte.NoEndTxStaysBlocked | exercises/B5/firmware/src/uarte.rs:113-163 | without ENDTX, polling never unblocks transmission |
| Uarte.TimeoutUarte.constructor | exercises/B5/firmware/src/uarte.rs:46-107 | after `init` no event is pending, `endtx_raised` is false and RX has been started once |
| Uarte.TimeoutUarte.TryStartTx | exercises/B5/firmware/src/uarte.rs:113-144 | a refused call changes nothing; on success TXD points at the bytes, MAXCNT holds their length truncated to 16 bits, and STARTTX is triggered |
| Uarte.TimeoutUarte.GetClearEvent | exercises/B5/firmware/src/uarte.rs:147-163 | the register update of `ClearEvent`; STARTRX is triggered exactly when ENDRX is reported |
| Uarte.TimeoutUarte.GetRxChunk | exercises/B5/firmware/src/uarte.rs:166-170 | the first RXD.AMOUNT bytes of the 255-byte buffer; an amount above 255 fails the slice bounds check |
| Uarte.BufferTaken.constructor | exercises/B5/firmware/src/uarte.rs:190 | the flag starts clear |
| Uarte.BufferTaken.Take | exercises/B5/firmware/src/uarte.rs:199-206 | hands out the buffer iff it was not taken before, and leaves it taken |
| Ints.AsU16 | exercises/B5/firmware/src/uarte.rs:128 | `as u16` keeps the value below 2^16 and otherwise its residue modulo 2^16 |
| Strompy.View | exercises/7-rust-for-data-science/1-rust-from-python/2-strompy/src/lib.rs:40-44 | panics iff `n == 0`; else `len(d) / n` rows of `n` columns over the leading entries of `d` |
| Strompy.TryConstView | exercises/7-rust-for-data-science/1-rust-from-python/2-strompy/src/lib.rs:46-56 | `InvalidDimensions` iff `(len(d) / n, n) != (R, C)`; otherwise the view of shape `(R, C)` |
| Strompy.ToRows | exercises/7-rust-for-data-science/1-rust-from-python/2-strompy/src/lib.rs:309-313 | `chunks_exact(n)` panics iff `n == 0`, else gives the chunks of `d` |
| Strompy.ChunksCover | exercises/7-rust-for-data-science/1-rust-from-python/2-strompy/src/lib.rs:311 | every chunk has exactly `n` entries; read in order the chunks are `d` up to a remainder shorter than `n` |
| Strompy.ChunksShape | exercises/7-rust-for-data-science/1-rust-from-python/2-strompy/src/lib.rs:309-313 | there are `len(d) / n` rows of `n` entries, holding the entries of `d` in order |
| Strompy.ChunkRow | exercises/7-rust-for-data-science/1-rust-from-python/2-strompy/src/lib.rs:309-313 | row `i` is `d[i*n .. (i+1)*n]` |
| Strompy.Eval | exercises/7-rust-for-data-science/1-rust-from-python/2-strompy/src/lib.rs:106-119 | never an error; success only for Dot, a 1x1 buffer holding the product of the two views; `Add` panics |
| Strompy.Fold | exercises/7-rust-for-data-science/1-rust-from-python/2-strompy/src/lib.rs:172-179 | no contract; specified by `Strompy.FoldAppend`, `Strompy.FoldStopsAtFailure` and `Strompy.ExecShape` |
| Strompy.Exec | exercises/7-rust-for-data-science/1-rust-from-python/2-strompy/src/lib.rs:172-179 | no contract; the fold of the operations from `lhs`, matched by `Strompy.ExecStreamMatchesFold` |
| Strompy.FoldAppend | exercises/7-rust-for-data-science/1-rust-from-python/2-strompy/src/lib.rs:172-179 | `try_fold` over `a + b` is the fold over `b` from where the fold over `a` ended |
| Strompy.FoldStopsAtFailure | exercises/7-rust-for-data-science/1-rust-from-python/2-strompy/src/lib.rs:172-179 | the first failing operation decides the outcome; later ones are skipped |
| Strompy.ExecShape | exercises/7-rust-for-data-science/1-rust-from-python/2-strompy/src/lib.rs:106-179 | a successful piece of work with at least one operation ends in a 1x1 buffer |
| Strompy.ExpectName | exercises/7-rust-for-data-science/1-rust-from-python/2-strompy/src/lib.rs:64-68 | a name other than the expected key gives the `Json` error with its message |
| Strompy.ToUsize | exercises/7-rust-for-data-science/1-rust-from-python/2-strompy/src/lib.rs:82 | a `usize` number is accepted iff it is a whole number in the 64-bit range |
| Strompy.ReadNumbers | exercises/7-rust-for-data-science/1-rust-from-python/2-strompy/src/lib.rs:69-74 | a successful read of the `d` array stops at its `]` |
| Strompy.ReadMatrixBuf | exercises/7-rust-for-data-science/1-rust-from-python/2-strompy/src/lib.rs:58-87 | a successful read consumes input |
| Strompy.DeserializeMatrixBuf | exercises/7-rust-for-data-science/1-rust-from-python/2-strompy/src/lib.rs:58-87 | the `while has_next` push loop returns what `ReadMatrixBuf` specifies |
| Strompy.ReadOperation | exercises/7-rust-for-data-science/1-rust-from-python/2-strompy/src/lib.rs:121-159 | only a Dot operation is ever read, and reading consumes input |
| Strompy.StreamOps | exercises/7-rust-for-data-science/1-rust-from-python/2-strompy/src/lib.rs:196-215 | no contract; specified by `Strompy.StreamOpsEncoded` |
| Strompy.ExecStream | exercises/7-rust-for-data-science/1-rust-from-python/2-strompy/src/lib.rs:182-216 | no contract; specified by `Strompy.ExecStreamMatchesFold` and `Strompy.LhsKeyOrder` |
| Strompy.ExecStreamingly | exercises/7-rust-for-data-science/1-rust-from-python/2-strompy/src/lib.rs:182-216 | the read-and-apply loop returns what `ExecStream` specifies |
| Strompy.ReadNumbersEncoded | exercises/7-rust-for-data-science/1-rust-from-python/2-strompy/src/lib.rs:69-74 | written numbers that fit the 36 entries are read back in order, up to `]` |
| Strompy.ReadNumbersOverflow | exercises/7-rust-for-data-science/1-rust-from-python/2-strompy/src/lib.rs:70-73 | the push past 36 entries panics |
| Strompy.MatrixBufRoundTrip | exercises/7-rust-for-data-science/1-rust-from-python/2-strompy/src/lib.rs:58-87 | reading a written buffer gives it back and leaves what follows |
| Strompy.TooManyNumbers | exercises/7-rust-for-data-science/1-rust-from-python/2-strompy/src/lib.rs:70-73 | a `d` array of more than 36 numbers panics |
| Strompy.MatrixKeyOrder | exercises/7-rust-for-data-science/1-rust-from-python/2-strompy/src/lib.rs:64-68 | a first key other than `d` is a `Json` error |
| Strompy.ColumnKeyOrder | exercises/7-rust-for-data-science/1-rust-from-python/2-strompy/src/lib.rs:77-81 | a key other than `n` after the array is a `Json` error |
| Strompy.OpCodeKeyOrder | exercises/7-rust-for-data-science/1-rust-from-python/2-strompy/src/lib.rs:141-145 | a first key other than `code` is a `Json` error |
| Strompy.UnknownOpCode | exercises/7-rust-for-data-science/1-rust-from-python/2-strompy/src/lib.rs:149-154 | any op code but `dot`, `add` included, is rejected |
| Strompy.RhsKeyOrder | exercises/7-rust-for-data-science/1-rust-from-python/2-strompy/src/lib.rs:128-132 | a key other than `rhs` after the code is a `Json` error |
| Strompy.LhsKeyOrder | exercises/7-rust-for-data-science/1-rust-from-python/2-strompy/src/lib.rs:188-192 | a first key other than `lhs` is a `Json` error |
| Strompy.OperationRoundTrip | exercises/7-rust-for-data-science/1-rust-from-python/2-strompy/src/lib.rs:121-159 | a written Dot operation reads back as itself |
| Strompy.StreamOpsEncoded | exercises/7-rust-for-data-science/1-rust-from-python/2-strompy/src/lib.rs:205-209 | streaming written operations computes the in-memory fold |
| Strompy.OpArrayEncoded | exercises/7-rust-for-data-science/1-rust-from-python/2-strompy/src/lib.rs:196-215 | the `op` array and the closing braces stream to the fold's result |
| Strompy.ExecStreamMatchesFold | exercises/7-rust-for-data-science/1-rust-from-python/2-strompy/src/lib.rs:182-216 | `exec_streamingly` on a written piece of work computes what `exec` computes in memory |
| Strompy.OpShape | exercises/7-rust-for-data-science/1-rust-from-python/2-strompy/src/lib.rs:438-451 | `InvalidDimensions` iff the two shapes differ; on success both sides are 1 to 6 |
| Strompy.MatrixOpAsWritten | exercises/7-rust-for-data-science/1-rust-from-python/2-strompy/src/lib.rs:409-452 | no contract; the macro as written, specified by `Strompy.AsWrittenLosesShape` and `Strompy.AsWrittenAddTwoByTwo` |
| Strompy.MatrixOp | exercises/7-rust-for-data-science/1-rust-from-python/2-strompy/src/lib.rs:409-452 | no contract; the macro with `n = C`, specified by `Strompy.MatrixOpKeepsShape` |
| Strompy.AsWrittenLosesShape | exercises/7-rust-for-data-science/1-rust-from-python/2-strompy/src/lib.rs:421-424 | as written, a result of two or more rows reads back as one row |
| Strompy.AsWrittenAddTwoByTwo | exercises/7-rust-for-data-science/1-rust-from-python/2-strompy/src/lib.rs:394-406 | as written, adding two 2x2 matrices gives a 1x4 buffer |
| Strompy.MatrixOpKeepsShape | exercises/7-rust-for-data-science/1-rust-from-python/2-strompy/src/lib.rs:409-452 | with `n = C` the result has the operands' shape and the closure's entries |
| Hello.Fact | exercises/7-rust-for-data-science/1-rust-from-python/1-hello-world/src/lib.rs:15-21 | no contract; specified by `Hello.FactIsFactorial`, `Hello.FactRecurrence` and `Hello.FactPanics` |
| Hello.ReduceMul | exercises/7-rust-for-data-science/1-rust-from-python/1-hello-world/src/lib.rs:19 | no contract; `None` on an empty range, otherwise the fold from the first element |
| Hello.FoldMul | exercises/7-rust-for-data-science/1-rust-from-python/1-hello-world/src/lib.rs:19 | no contract; specified by `Hello.FoldMulProd` |
| Hello.Range | exercises/7-rust-for-data-science/1-rust-from-python/1-hello-world/src/lib.rs:16 | `lo..hi` holds `hi - lo` consecutive values from `lo`, or none |
| Hello.FoldMulProd | exercises/7-rust-for-data-science/1-rust-from-python/1-hello-world/src/lib.rs:16-19 | folding `Mul::mul` over a range multiplies the accumulator by the range's product |
| Hello.FactIsFactorial | exercises/7-rust-for-data-science/1-rust-from-python/1-hello-world/src/lib.rs:15-21 | `fact(n)` returns iff 1 <= n < `u32::MAX`, and then returns `n!` |
| Hello.FactRecurrence | exercises/7-rust-for-data-science/1-rust-from-python/1-hello-world/src/lib.rs:16-20 | `fact(1) == 1` and `fact(n + 1) == (n + 1) * fact(n)` |
| Hello.FactPanics | exercises/7-rust-for-data-science/1-rust-from-python/1-hello-world/src/lib.rs:16-20 | `fact(0)` and `fact(u32::MAX)` panic |
| NodeSimulator.Deadline | exercises/4-multitasking/3-asynchronous-multitasking/2-measurement-data-sink/node-simulator/src/main.rs:180 | no contract; `last_keep_alive` plus five seconds, pinned down by `NodeSimulator.DeadlineBoundary` |
| NodeSimulator.DeadlineBoundary | exercises/4-multitasking/3-asynchronous-multitasking/2-measurement-data-sink/node-simulator/src/main.rs:180-188 | an event times out iff it arrives more than 5000 ms after the last good keep-alive; an event that does not time out never moves `last_keep_alive` past the deadline |
| NodeSimulator.KeepAliveOutcome | exercises/4-multitasking/3-asynchronous-multitasking/2-measurement-data-sink/node-simulator/src/main.rs:180-210 | no contract; specified by `NodeSimulator.DeadlineBoundary`, `NodeSimulator.LateEventTimesOut`, `NodeSimulator.ClosedStreamIsLost` and `NodeSimulator.LineInTime` |
| NodeSimulator.NextKeepAlive | exercises/4-multitasking/3-asynchronous-multitasking/2-measurement-data-sink/node-simulator/src/main.rs:191-209 | no contract; specified by `NodeSimulator.LateEventTimesOut` and `NodeSimulator.LineInTime` |
| NodeSimulator.KeepAliveState.constructor | exercises/4-multitasking/3-asynchronous-multitasking/2-measurement-data-sink/node-simulator/src/main.rs:101 | `last_keep_alive` starts at the connection time |
| NodeSimulator.KeepAliveState.HandleKeepAlive | exercises/4-multitasking/3-asynchronous-multitasking/2-measurement-data-sink/node-simulator/src/main.rs:176-210 | the outcome and the new `last_keep_alive` are those of the deadline rule, which `NodeSimulator.DeadlineBoundary`, `NodeSimulator.LateEventTimesOut`, `NodeSimulator.ClosedStreamIsLost` and `NodeSimulator.LineInTime` state case by case |
| NodeSimulator.KeepAliveState.RunKeepAlive | exercises/4-multitasking/3-asynchronous-multitasking/2-measurement-data-sink/node-simulator/src/main.rs:103-107 | the loop handles events in order until the first error, as `KeepAliveRun` specifies |
| NodeSimulator.KeepAliveRun | exercises/4-multitasking/3-asynchronous-multitasking/2-measurement-data-sink/node-simulator/src/main.rs:103-107 | `Ok` only after every event was handled; an error stops the loop |
| NodeSimulator.LateEventTimesOut | exercises/4-multitasking/3-asynchronous-multitasking/2-measurement-data-sink/node-simulator/src/main.rs:186-188 | anything arriving after the deadline is the no-keep-alive error, and the time is not refreshed |
| NodeSimulator.ClosedStreamIsLost | exercises/4-multitasking/3-asynchronous-multitasking/2-measurement-data-sink/node-simulator/src/main.rs:183-185 | end of stream or a read error in time is a lost connection |
| NodeSimulator.LineInTime | exercises/4-multitasking/3-asynchronous-multitasking/2-measurement-data-sink/node-simulator/src/main.rs:191-209 | any line in time is `Ok`; only `everything_is_fine: true` refreshes the time, to the line's arrival |
| NodeSimulator.RegularKeepAlivesSurvive | exercises/4-multitasking/3-asynchronous-multitasking/2-measurement-data-sink/node-simulator/src/main.rs:176-209 | good keep-alives less than five seconds apart keep the client alive |
| NodeSimulator.UnhappyServerTimesOut | exercises/4-multitasking/3-asynchronous-multitasking/2-measurement-data-sink/node-simulator/src/main.rs:199-203 | `everything_is_fine: false` does not count: the client times out five seconds after the last good message |
| NodeSimulator.Measure | exercises/4-multitasking/3-asynchronous-multitasking/2-measurement-data-sink/node-simulator/src/main.rs:212-227 | `node_id == id`, `room_id == id % 256`, `fires` is 1 iff the Bernoulli sample is true, mood `Good`, and samples within their ranges |
| NodeSimulator.SharedRoom | exercises/4-multitasking/3-asynchronous-multitasking/2-measurement-data-sink/node-simulator/src/main.rs:217 | nodes whose ids differ by a multiple of 256 report the same room |
| NodeSimulator.Failures | exercises/4-multitasking/3-asynchronous-multitasking/2-measurement-data-sink/node-simulator/src/main.rs:67-83 | the count is at most the number of tasks, and zero iff every task finished with `Ok` |
| NodeSimulator.JoinAll | exercises/4-multitasking/3-asynchronous-multitasking/2-measurement-data-sink/node-simulator/src/main.rs:67-90 | `main` fails iff some task failed or panicked, reporting the failure count |

## Left out

- I/O and time are not modelled:
  - the aggregator's `thread::sleep`, `SystemTime::now`, CSV writer and `flush`;
  - `now` is a parameter in whole seconds, so the `duration_since(UNIX_EPOCH).unwrap()` panic for a clock before 1970 is not modelled.
- The sending side of the measurement channel is not modelled, nor concurrent sends during a drain. The receiver holds what is queued when the pass starts. The `handle_client` servers and their JSON codecs are not part of this model.
- The `f64` fields (temperature, humidity, averages) are reals, so the averages are exact quotients without rounding.
- `total_fires` and the other sums are unbounded: the `u64` overflow of `total_fires` is not modelled.
- The part of `from_xy` before the sector match (`atan2f`, `roundf` and the `as u32` cast) is floating point and is left out. `SectorDirection` takes the rounded `part` as input.
- Compass.SectorDirection: models a build with overflow checks, where `part + 4` panics on overflow. A release build wraps instead. `Compass.SectorDirectionWrapping` models that build, and `Compass.BuildsAgree` relates the two.
- `Dial::run` never returns. `Dial.Run` models it over a finite prefix of the events it receives.
- `dir_channel`, the embassy channel and ticker, and the `rprintln!` trace are not modelled. Events are a given sequence.
- The pins are bits in two arrays; the HAL's `Output` drivers are not modelled.
- `TimeoutUarte::init` is left out: its unsafe DMA, PPI and timer setup, and its `take().expect(..)` of the buffer. The constructor states the state it leaves, with the event registers at their reset value.
- The peripheral's own behaviour (raising events, filling the buffer, the RX timeout) changes register fields from outside. It is not modelled as an operation.
- `TXD.PTR` is modelled as the bytes it points at, not as a 32-bit address.
- The struson reader is a sequence of JSON tokens. Its number text, its whitespace and its split between a reader error and a panic are not modelled. A number that is not a whole `usize` is a `ParseInt` error.
- The nalgebra dot product is a parameter and may panic. The closure of `matrix_op!` is a parameter that gives the result's entries.
- `Operation::Add` is `todo!()` in the source and is modelled as a panic. Its deserialisation is also absent in the source, so `add` is an unknown op code.
- The pyo3 functions `exec`, `feed_bytes` and the module init are `todo!()` and are not modelled. Neither is the `strompychan` reader with its `Arc<Mutex>`.
- The codon table `DNA_TO_AMINO` lives in a `data` module that is not part of this model. It is a function parameter: a total map from triples to an amino-acid letter or STOP.
- `Sequence.__len__` and `__str__` are left out. `Sequence` is a subset type of strings, so its length and text are the string's.
- The long tests `test_orf_decoding`, `test_all_orf_decoding` and `test_three_mer`/`test_four_mer` are left out. They need the codon table, or long concrete proofs.
- `Dna.AllOrfs`: the generator is modelled as the list of everything it yields. A consumer that stops early is not modelled. When `decode_orf` raises, `Abort` carries none of the frames yielded before it, although a `for` consumer such as `main` has already seen them.
- `fact` computes with `BigUint`, so results are unbounded naturals. For `n == u32::MAX`, a debug build panics on the overflow of `n + 1`, and a release build wraps to an empty range whose `unwrap` panics. Both are one `Abort`.
- `say_hello`, `main`'s printing and the other `hello_py` functions are not modelled.
- The random samples of `measure` (uniform temperature, `Open01` humidity, Bernoulli fire) are parameters within their supports.
- The node simulator's TCP client loops, `send_measurement`, `run_broken_client`, the `select!` with Ctrl-C and the task spawning are left out. Each event carries its arrival time in milliseconds.
- `NodeSimulator.KeepAliveState.RunKeepAlive` returns `Ok` when the given events run out. In the source, the loop would instead wait or end through another branch.
- The `tracing` calls are not modelled.

## Findings

| source | as written | input that shows it | evidently intended | confidence | as-written member | corrected member |
|---|---|---|---|---|---|---|
| exercises/7-rust-for-data-science/1-rust-from-python/2-strompy/src/lib.rs:421-424 | `matrix_op!` builds its result with `n = R * C`, the entry count, but `n` is the number of columns | adding two 2x2 matrices (`d = [1, 2, 3, 4]`, `n = 2`) gives `d = [2, 4, 6, 8]` with `n = 4`, which `view` reads as one row of four | `n = C`, so the result has the operands' `R x C` shape | not executed | Strompy.AsWrittenAddTwoByTwo | Strompy.MatrixOpKeepsShape |
