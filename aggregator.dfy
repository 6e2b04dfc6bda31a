/** One pass of the aggregation loop of the measurement data sink
    (`database::run`, and the `database` function of the server binary):
    drain the queued measurements without blocking, group them by room in an
    ordered map, and emit one row per room with the fire total and the average
    temperature and humidity, every row stamped with the same time. */
module Aggregator {
  import opened Wrappers
  import opened Measurements

  /** One CSV row. */
  datatype DatabaseRow = DatabaseRow(
    secondsSinceUnixEpoch: nat,
    roomId: nat,
    avgTemperature: real,
    avgHumidity: real,
    totalFires: nat)

  // ---------------------------------------------------------------------------
  // What one window should produce, stated on the drained queue `q`.

  /** The measurements of room `room`, in queue order. */
  function Filter(q: seq<Measurement>, room: nat): seq<Measurement> {
    if |q| == 0 then []
    else Filter(q[..|q| - 1], room) + (if q[|q| - 1].roomId == room then [q[|q| - 1]] else [])
  }

  ghost function RoomsOf(q: seq<Measurement>): set<nat> {
    set m | m in q :: m.roomId
  }

  function TemperatureSum(ms: seq<Measurement>): real {
    if |ms| == 0 then 0.0 else TemperatureSum(ms[..|ms| - 1]) + ms[|ms| - 1].temperature
  }

  function HumiditySum(ms: seq<Measurement>): real {
    if |ms| == 0 then 0.0 else HumiditySum(ms[..|ms| - 1]) + ms[|ms| - 1].relHumidity
  }

  function FireSum(ms: seq<Measurement>): nat {
    if |ms| == 0 then 0 else FireSum(ms[..|ms| - 1]) + ms[|ms| - 1].fires
  }

  /** The row for a non-empty group: exact averages and the exact fire total. */
  function RowOf(now: nat, room: nat, group: seq<Measurement>): DatabaseRow
    requires |group| > 0
  {
    DatabaseRow(now, room,
                TemperatureSum(group) / |group| as real,
                HumiditySum(group) / |group| as real,
                FireSum(group))
  }

  /** Every room that occurs in `q` has a row. */
  ghost predicate Covers(q: seq<Measurement>, rows: seq<DatabaseRow>) {
    forall k :: k in RoomsOf(q) ==> exists i :: 0 <= i < |rows| && rows[i].roomId == k
  }

  /** `rows` is a correct output for the window `q` closed at `now`: rooms in
      strictly ascending order, one row for every room that occurs in `q` and
      for no other, each row the summary of exactly that room's measurements. */
  ghost predicate IsPassOutput(q: seq<Measurement>, now: nat, rows: seq<DatabaseRow>) {
    && (forall i, j :: 0 <= i < j < |rows| ==> rows[i].roomId < rows[j].roomId)
    && (forall i :: 0 <= i < |rows| ==> rows[i].roomId in RoomsOf(q))
    && Covers(q, rows)
    && (forall i :: 0 <= i < |rows| ==>
          |Filter(q, rows[i].roomId)| > 0 && rows[i] == RowOf(now, rows[i].roomId, Filter(q, rows[i].roomId)))
  }

  // ---------------------------------------------------------------------------
  // The `BTreeMap<usize, Vec<Measurement>>`: entries in strictly ascending key order.

  type Entry = (nat, seq<Measurement>)

  predicate Ascending(rooms: seq<Entry>) {
    forall i, j :: 0 <= i < j < |rooms| ==> rooms[i].0 < rooms[j].0
  }

  predicate NonEmptyEntries(rooms: seq<Entry>) {
    forall i :: 0 <= i < |rooms| ==> |rooms[i].1| > 0
  }

  /** The vector stored under `room`, or the empty default. */
  function Get(rooms: seq<Entry>, room: nat): seq<Measurement> {
    if |rooms| == 0 then [] else if rooms[0].0 == room then rooms[0].1 else Get(rooms[1..], room)
  }

  lemma {:induction false} GetBelow(rooms: seq<Entry>, k: nat)
    requires Ascending(rooms) && (|rooms| > 0 ==> k < rooms[0].0)
    ensures Get(rooms, k) == []
  {
    if |rooms| > 1 {
      GetBelow(rooms[1..], k);
    }
  }

  /** `rooms.entry(m.room_id).or_default().push(m)`: the vector of `m`'s room
      grows by `m` (an absent room gets a new entry at its place in key order),
      every other room keeps its vector. */
  function EntryPush(rooms: seq<Entry>, m: Measurement): (r: seq<Entry>)
    requires Ascending(rooms)
    ensures Ascending(r)
    ensures |r| > 0 && (r[0].0 == m.roomId || (|rooms| > 0 && r[0].0 == rooms[0].0))
    ensures NonEmptyEntries(rooms) ==> NonEmptyEntries(r)
    ensures forall k :: Get(r, k) == if k == m.roomId then Get(rooms, k) + [m] else Get(rooms, k)
  {
    if |rooms| == 0 then [(m.roomId, [m])]
    else if rooms[0].0 == m.roomId then [(m.roomId, rooms[0].1 + [m])] + rooms[1..]
    else if m.roomId < rooms[0].0 then
      GetBelow(rooms, m.roomId);
      [(m.roomId, [m])] + rooms
    else
      var tail := EntryPush(rooms[1..], m);
      assert rooms[0].0 < tail[0].0;
      [rooms[0]] + tail
  }

  /** The map after filing the measurements of `q` one by one, in queue order. */
  function Grouped(q: seq<Measurement>): (rooms: seq<Entry>)
    ensures Ascending(rooms) && NonEmptyEntries(rooms)
  {
    if |q| == 0 then [] else EntryPush(Grouped(q[..|q| - 1]), q[|q| - 1])
  }

  lemma GroupedSnoc(q: seq<Measurement>, m: Measurement)
    ensures Grouped(q + [m]) == EntryPush(Grouped(q), m)
  {
    assert (q + [m])[..|q|] == q;
  }

  /** `rooms.values().map(Vec::len).sum()`. */
  function MeasurementCount(rooms: seq<Entry>): nat {
    if |rooms| == 0 then 0 else |rooms[0].1| + MeasurementCount(rooms[1..])
  }

  lemma {:induction false} AscendingGet(rooms: seq<Entry>, i: nat)
    requires Ascending(rooms) && i < |rooms|
    ensures Get(rooms, rooms[i].0) == rooms[i].1
  {
    if i > 0 {
      AscendingGet(rooms[1..], i - 1);
    }
  }

  /** A room with a non-empty vector has an entry. */
  lemma {:induction false} GetFound(rooms: seq<Entry>, k: nat) returns (i: nat)
    requires Get(rooms, k) != []
    ensures i < |rooms| && rooms[i].0 == k
  {
    if rooms[0].0 == k {
      i := 0;
    } else {
      var j := GetFound(rooms[1..], k);
      i := j + 1;
    }
  }

  lemma {:induction false} FilterRooms(q: seq<Measurement>, room: nat)
    ensures |Filter(q, room)| > 0 <==> room in RoomsOf(q)
    ensures forall m :: m in Filter(q, room) ==> m.roomId == room
  {
    if |q| > 0 {
      var init := q[..|q| - 1];
      FilterRooms(init, room);
      assert q == init + [q[|q| - 1]];
      assert RoomsOf(q) == RoomsOf(init) + {q[|q| - 1].roomId};
    }
  }

  lemma {:induction false} EntryPushCount(rooms: seq<Entry>, m: Measurement)
    requires Ascending(rooms)
    ensures MeasurementCount(EntryPush(rooms, m)) == MeasurementCount(rooms) + 1
  {
    if |rooms| > 0 && rooms[0].0 != m.roomId && m.roomId > rooms[0].0 {
      EntryPushCount(rooms[1..], m);
      assert EntryPush(rooms, m)[1..] == EntryPush(rooms[1..], m);
    } else if |rooms| > 0 && rooms[0].0 == m.roomId {
      assert EntryPush(rooms, m)[1..] == rooms[1..];
    } else if |rooms| > 0 {
      assert EntryPush(rooms, m)[1..] == rooms;
    }
  }

  /** Every drained measurement lands in the vector of its own room, in queue
      order. */
  lemma {:induction false} GroupedIsByRoom(q: seq<Measurement>)
    ensures forall k :: Get(Grouped(q), k) == Filter(q, k)
  {
    if |q| > 0 {
      GroupedIsByRoom(q[..|q| - 1]);
    }
  }

  /** Every entry of the grouped map is non-empty (so `cnt` is never zero) and
      holds only measurements of its own room (so the `assert_eq!` never fails). */
  lemma GroupedEntries(q: seq<Measurement>)
    ensures forall i :: 0 <= i < |Grouped(q)| ==>
              && Grouped(q)[i].1 == Filter(q, Grouped(q)[i].0)
              && Grouped(q)[i].0 in RoomsOf(q)
              && |Grouped(q)[i].1| > 0
              && forall m :: m in Grouped(q)[i].1 ==> m.roomId == Grouped(q)[i].0
  {
    var rooms := Grouped(q);
    GroupedIsByRoom(q);
    forall i | 0 <= i < |rooms|
      ensures rooms[i].1 == Filter(q, rooms[i].0) && rooms[i].0 in RoomsOf(q)
      ensures |rooms[i].1| > 0 && forall m :: m in rooms[i].1 ==> m.roomId == rooms[i].0
    {
      AscendingGet(rooms, i);
      assert rooms[i] in rooms;
      FilterRooms(q, rooms[i].0);
    }
  }

  /** `measurement_count` equals the number of measurements drained. */
  lemma {:induction false} GroupedCount(q: seq<Measurement>)
    ensures MeasurementCount(Grouped(q)) == |q|
  {
    if |q| > 0 {
      GroupedCount(q[..|q| - 1]);
      EntryPushCount(Grouped(q[..|q| - 1]), q[|q| - 1]);
    }
  }

  // ---------------------------------------------------------------------------
  // The two loops of one pass.

  /** The loop over one room's measurements: `assert_eq!` on every room id,
      running sums, then the division by `cnt`. */
  method Summarize(now: nat, room: nat, measurements: seq<Measurement>) returns (r: Run<DatabaseRow>)
    requires |measurements| > 0
    ensures r.Done? <==> forall m :: m in measurements ==> m.roomId == room
    ensures r.Done? ==> r.value == RowOf(now, room, measurements)
  {
    var temperature, humidity, fires := 0.0, 0.0, 0;
    var i := 0;
    while i < |measurements|
      invariant 0 <= i <= |measurements|
      invariant forall j :: 0 <= j < i ==> measurements[j].roomId == room
      invariant temperature == TemperatureSum(measurements[..i])
      invariant humidity == HumiditySum(measurements[..i])
      invariant fires == FireSum(measurements[..i])
    {
      var meas := measurements[i];
      if room != meas.roomId {
        return Abort("assertion `left == right` failed: room != meas.room_id");
      }
      assert measurements[..i + 1][..i] == measurements[..i];
      temperature := temperature + meas.temperature;
      humidity := humidity + meas.relHumidity;
      fires := fires + meas.fires;
      i := i + 1;
    }
    assert measurements[..i] == measurements;
    var cnt := |measurements|;
    r := Done(DatabaseRow(now, room, temperature / cnt as real, humidity / cnt as real, fires));
  }

  /** The rows of a map whose entries are all non-empty. */
  function RowsOf(now: nat, rooms: seq<Entry>): (rows: seq<DatabaseRow>)
    requires forall i :: 0 <= i < |rooms| ==> |rooms[i].1| > 0
    ensures |rows| == |rooms|
    ensures forall i :: 0 <= i < |rooms| ==> rows[i] == RowOf(now, rooms[i].0, rooms[i].1)
  {
    if |rooms| == 0 then [] else [RowOf(now, rooms[0].0, rooms[0].1)] + RowsOf(now, rooms[1..])
  }

  /** `for (room, measurements) in rooms`: one row per entry, in key order. */
  method EmitRows(now: nat, rooms: seq<Entry>) returns (r: Run<seq<DatabaseRow>>)
    requires forall i :: 0 <= i < |rooms| ==> |rooms[i].1| > 0
    ensures r.Done? <==> forall i :: 0 <= i < |rooms| ==> forall m :: m in rooms[i].1 ==> m.roomId == rooms[i].0
    ensures r.Done? ==> r.value == RowsOf(now, rooms)
  {
    var rows: seq<DatabaseRow> := [];
    var i := 0;
    while i < |rooms|
      invariant 0 <= i <= |rooms|
      invariant forall j :: 0 <= j < i ==> forall m :: m in rooms[j].1 ==> m.roomId == rooms[j].0
      invariant rows == RowsOf(now, rooms[..i])
    {
      var row := Summarize(now, rooms[i].0, rooms[i].1);
      if row.Abort? {
        return Abort(row.reason);
      }
      assert rooms[..i + 1][..i] == rooms[..i];
      rows := rows + [row.value];
      i := i + 1;
    }
    assert rooms[..i] == rooms;
    r := Done(rows);
  }

  /** The rows one pass emits for the drained queue `q`. */
  function PassRows(q: seq<Measurement>, now: nat): (rows: seq<DatabaseRow>)
    ensures IsPassOutput(q, now, rows)
  {
    GroupedEntries(q);
    GroupedRowsArePassOutput(q, now);
    RowsOf(now, Grouped(q))
  }

  lemma GroupedRowsArePassOutput(q: seq<Measurement>, now: nat)
    ensures forall i :: 0 <= i < |Grouped(q)| ==> |Grouped(q)[i].1| > 0
    ensures IsPassOutput(q, now, RowsOf(now, Grouped(q)))
  {
    GroupedEntries(q);
    var rooms := Grouped(q);
    var rows := RowsOf(now, rooms);
    RowsOrdered(now, rooms);
    RowsSummarize(q, now);
    RowsCover(q, now);
  }

  lemma RowsOrdered(now: nat, rooms: seq<Entry>)
    requires Ascending(rooms) && forall i :: 0 <= i < |rooms| ==> |rooms[i].1| > 0
    ensures var rows := RowsOf(now, rooms);
      forall i, j :: 0 <= i < j < |rows| ==> rows[i].roomId < rows[j].roomId
  {
  }

  lemma RowsSummarize(q: seq<Measurement>, now: nat)
    requires forall i :: 0 <= i < |Grouped(q)| ==> |Grouped(q)[i].1| > 0
    ensures var rows := RowsOf(now, Grouped(q));
      forall i :: 0 <= i < |rows| ==>
        && rows[i].roomId in RoomsOf(q)
        && |Filter(q, rows[i].roomId)| > 0
        && rows[i] == RowOf(now, rows[i].roomId, Filter(q, rows[i].roomId))
  {
    GroupedEntries(q);
  }

  lemma RowsCover(q: seq<Measurement>, now: nat)
    requires forall i :: 0 <= i < |Grouped(q)| ==> |Grouped(q)[i].1| > 0
    ensures Covers(q, RowsOf(now, Grouped(q)))
  {
    GroupedIsByRoom(q);
    var rooms := Grouped(q);
    var rows := RowsOf(now, rooms);
    forall k | k in RoomsOf(q) ensures exists i :: 0 <= i < |rooms| && rows[i].roomId == k {
      FilterRooms(q, k);
      var i := GetFound(rooms, k);
      assert rows[i].roomId == k;
    }

  }

  /** The sending side of the channel is not modelled: the receiver holds the
      measurements queued when the pass starts, in queue order. */
  class Receiver {
    var queue: seq<Measurement>

    constructor (queued: seq<Measurement>)
      ensures queue == queued
    {
      queue := queued;
    }

    /** `try_recv`: the oldest queued measurement, or nothing (never blocks). */
    method TryRecv() returns (r: Option<Measurement>)
      modifies this
      ensures old(queue) == [] ==> r == None && queue == []
      ensures old(queue) != [] ==> r == Some(old(queue)[0]) && queue == old(queue)[1..]
    {
      if queue == [] {
        r := None;
      } else {
        r := Some(queue[0]);
        queue := queue[1..];
      }
    }
  }

  /** The drain of one pass: `try_recv` until the channel is empty, each
      measurement pushed onto its room's entry. */
  method DrainRooms(receiver: Receiver) returns (rooms: seq<Entry>)
    modifies receiver
    ensures receiver.queue == []
    ensures rooms == Grouped(old(receiver.queue))
  {
    ghost var drained: seq<Measurement> := [];
    rooms := [];
    while true
      invariant old(receiver.queue) == drained + receiver.queue
      invariant rooms == Grouped(drained)
      decreases |receiver.queue|
    {
      var meas := receiver.TryRecv();
      if meas.None? {
        break;
      }
      GroupedSnoc(drained, meas.value);
      rooms := EntryPush(rooms, meas.value);
      drained := drained + [meas.value];
    }
    assert drained == old(receiver.queue);
  }

  /** One pass of the loop body: `now` is captured once before the drain (the
      clock is a parameter); the drain stops at the first empty `try_recv`. */
  method AggregatePass(receiver: Receiver, now: nat) returns (rows: seq<DatabaseRow>)
    modifies receiver
    ensures receiver.queue == []
    ensures rows == PassRows(old(receiver.queue), now)
  {
    var rooms := DrainRooms(receiver);
    GroupedEntries(old(receiver.queue));
    var r := EmitRows(now, rooms);
    rows := r.value;
  }

  // ---------------------------------------------------------------------------
  // Properties of the output of a pass.

  function Elems(s: seq<nat>): set<nat> {
    if |s| == 0 then {} else {s[0]} + Elems(s[1..])
  }

  lemma {:induction false} ElemsIndex(s: seq<nat>, i: nat)
    requires i < |s|
    ensures s[i] in Elems(s)
  {
    if i > 0 {
      ElemsIndex(s[1..], i - 1);
    }
  }

  lemma {:induction false} ElemsFound(s: seq<nat>, x: nat) returns (i: nat)
    requires x in Elems(s)
    ensures i < |s| && s[i] == x
  {
    if s[0] == x {
      i := 0;
    } else {
      var j := ElemsFound(s[1..], x);
      i := j + 1;
    }
  }

  predicate StrictlyAscending(s: seq<nat>) {
    forall i, j :: 0 <= i < j < |s| ==> s[i] < s[j]
  }

  /** The room ids of the rows, in order. */
  function RoomIds(rows: seq<DatabaseRow>): (ids: seq<nat>)
    ensures |ids| == |rows|
    ensures forall i :: 0 <= i < |rows| ==> ids[i] == rows[i].roomId
  {
    if |rows| == 0 then [] else [rows[0].roomId] + RoomIds(rows[1..])
  }

  lemma AscendingHead(s: seq<nat>)
    requires StrictlyAscending(s) && |s| > 0
    ensures forall x :: x in Elems(s[1..]) ==> s[0] < x
  {
    forall x | x in Elems(s[1..]) ensures s[0] < x {
      var j := ElemsFound(s[1..], x);
      assert s[j + 1] == x;
    }
  }

  /** A strictly ascending sequence has no repeated element. */
  lemma {:induction false} StrictlyAscendingCard(s: seq<nat>)
    requires StrictlyAscending(s)
    ensures |Elems(s)| == |s|
  {
    if |s| > 0 {
      StrictlyAscendingCard(s[1..]);
      AscendingHead(s);
    }
  }

  lemma HeadIsLeast(s: seq<nat>, x: nat)
    requires StrictlyAscending(s) && x in Elems(s)
    ensures s[0] <= x
  {
    var j := ElemsFound(s, x);
    if j > 0 {
      assert s[0] < s[j];
    }
  }

  /** Two strictly ascending sequences with the same elements are equal. */
  lemma {:induction false} StrictlyAscendingUnique(s: seq<nat>, t: seq<nat>)
    requires StrictlyAscending(s) && StrictlyAscending(t) && Elems(s) == Elems(t)
    ensures s == t
  {
    StrictlyAscendingCard(s);
    StrictlyAscendingCard(t);
    if |s| > 0 {
      AscendingHead(s);
      AscendingHead(t);
      HeadIsLeast(s, t[0]);
      HeadIsLeast(t, s[0]);
      assert Elems(s[1..]) == Elems(s) - {s[0]};
      assert Elems(t[1..]) == Elems(t) - {t[0]};
      StrictlyAscendingUnique(s[1..], t[1..]);
      assert s == [s[0]] + s[1..] && t == [t[0]] + t[1..];
    }
  }

  lemma PassRoomIds(q: seq<Measurement>, now: nat, rows: seq<DatabaseRow>)
    requires IsPassOutput(q, now, rows)
    ensures StrictlyAscending(RoomIds(rows))
    ensures Elems(RoomIds(rows)) == RoomsOf(q)
  {
    var ids := RoomIds(rows);
    forall k | k in RoomsOf(q) ensures k in Elems(ids) {
      var i :| 0 <= i < |rows| && rows[i].roomId == k;
      ElemsIndex(ids, i);
    }
    forall k | k in Elems(ids) ensures k in RoomsOf(q) {
      var i := ElemsFound(ids, k);
    }
  }

  /** Exactly one row per distinct room among the drained measurements. */
  lemma PassRowCount(q: seq<Measurement>, now: nat, rows: seq<DatabaseRow>)
    requires IsPassOutput(q, now, rows)
    ensures |rows| == |RoomsOf(q)|
  {
    PassRoomIds(q, now, rows);
    StrictlyAscendingCard(RoomIds(rows));
  }

  /** All rows of one pass carry the `now` captured before grouping. */
  lemma PassTimestamp(q: seq<Measurement>, now: nat, rows: seq<DatabaseRow>)
    requires IsPassOutput(q, now, rows)
    ensures forall i :: 0 <= i < |rows| ==> rows[i].secondsSinceUnixEpoch == now
  {
  }

  /** Two outputs for the same window are equal: the rows of a pass are determined
      by the drained measurements and `now`. */
  lemma PassOutputUnique(q: seq<Measurement>, now: nat, a: seq<DatabaseRow>, b: seq<DatabaseRow>)
    requires IsPassOutput(q, now, a) && IsPassOutput(q, now, b)
    ensures a == b
  {
    PassRoomIds(q, now, a);
    PassRoomIds(q, now, b);
    StrictlyAscendingUnique(RoomIds(a), RoomIds(b));
    assert |a| == |b|;
    forall i | 0 <= i < |a| ensures a[i] == b[i] {
      assert RoomIds(a)[i] == RoomIds(b)[i];
    }
  }

  /** An empty drain produces no rows. */
  lemma EmptyWindow(now: nat, rows: seq<DatabaseRow>)
    requires IsPassOutput([], now, rows)
    ensures rows == []
  {
    PassRowCount([], now, rows);
    assert RoomsOf([]) == {};
  }

  /** A room with one measurement gets that measurement's own values. */
  lemma SingleMeasurement(m: Measurement, now: nat, rows: seq<DatabaseRow>)
    requires IsPassOutput([m], now, rows)
    ensures rows == [DatabaseRow(now, m.roomId, m.temperature, m.relHumidity, m.fires)]
  {
    PassOutputUnique([m], now, rows, PassRows([m], now));
    assert [m][..0] == [];
    assert Grouped([]) == [];
    assert EntryPush([], m) == [(m.roomId, [m])];
    assert Grouped([m]) == [(m.roomId, [m])];
    assert PassRows([m], now) == [RowOf(now, m.roomId, [m])];
    assert TemperatureSum([m]) == m.temperature;
    assert HumiditySum([m]) == m.relHumidity;
    assert FireSum([m]) == m.fires;
    assert RowOf(now, m.roomId, [m]) == DatabaseRow(now, m.roomId, m.temperature, m.relHumidity, m.fires);
  }

  /** Two sensors in room 5 (20.0 and 22.0 degrees, humidity 0.4 and 0.6, one
      fire between them) give the single row 21.0 / 0.5 / 1. */
  lemma TwoSensorsOneRoom(now: nat, rows: seq<DatabaseRow>)
    requires IsPassOutput([Measurement(1, 5, 20.0, 0.4, 0, Good), Measurement(2, 5, 22.0, 0.6, 1, Meh)], now, rows)
    ensures rows == [DatabaseRow(now, 5, 21.0, 0.5, 1)]
  {
    var a, b := Measurement(1, 5, 20.0, 0.4, 0, Good), Measurement(2, 5, 22.0, 0.6, 1, Meh);
    var q := [a, b];
    PassOutputUnique(q, now, rows, PassRows(q, now));
    assert q[..1] == [a] && [a][..0] == [];
    var g1 := Grouped([a]);
    assert Grouped([]) == [];
    assert EntryPush([], a) == [(5, [a])];
    assert g1 == [(5, [a])];
    assert g1[1..] == [];
    assert q[..1] == [a];
    assert Grouped(q) == EntryPush(g1, b);
    assert [a] + [b] == [a, b];
    assert EntryPush(g1, b) == [(5, [a] + [b])] + g1[1..];
    assert [a, b][..1] == [a];
    assert PassRows(q, now) == [RowOf(now, 5, q)];
    assert TemperatureSum(q) == 42.0;
    assert HumiditySum(q) == 1.0;
    assert FireSum(q) == 1;
  }
}
