/** The UARTE wrapper of the embedded firmware: the TX handshake on the
    TXSTARTED event and the `endtx_raised` flag, the event poll that the
    interrupt handler runs, the received chunk in the DMA buffer, and the
    take-once ownership flag of that buffer. Peripheral registers are plain
    fields; the peripheral's own behaviour (raising events) is a change of
    those fields. */
module Uarte {
  import opened Wrappers
  import opened Ints

  /** `BUFFER_SIZE`: the nRF52832 cannot receive into more than 255 bytes. */
  const BufferSize := 255

  datatype UarteEvent = EndRx | EndTx

  /** Tasks the driver triggers by writing 1 to a task register. */
  datatype Task = StartTx | StartRx

  /** The event registers and the driver's `endtx_raised` flag. */
  datatype Flags = Flags(txStarted: bool, endRx: bool, endTx: bool, endtxRaised: bool)

  /** The flag part of `try_start_tx`: `None` when a transaction is still
      running, else the flags it leaves. */
  function StartTxFlags(f: Flags): (r: Option<Flags>)
    ensures r.None? <==> f.txStarted && !f.endtxRaised
    ensures r.Some? ==> !r.value.txStarted && r.value.endRx == f.endRx && r.value.endTx == f.endTx
    ensures r.Some? ==> r.value.endtxRaised == (f.endtxRaised && !f.txStarted)
  {
    if f.txStarted then
      if !f.endtxRaised then None else Some(f.(txStarted := false, endtxRaised := false))
    else Some(f)
  }

  /** `get_clear_event` on the flags: ENDRX first, then ENDTX (which sets
      `endtx_raised`), else nothing. */
  function ClearEvent(f: Flags): (r: (Option<UarteEvent>, Flags))
    ensures r.0 == None <==> !f.endRx && !f.endTx
    ensures r.0 == None ==> r.1 == f
    ensures r.0 == Some(EndRx) <==> f.endRx
    ensures r.0 == Some(EndRx) ==> r.1 == f.(endRx := false)
    ensures r.0 == Some(EndTx) ==> r.1 == f.(endTx := false, endtxRaised := true)
  {
    if f.endRx then (Some(EndRx), f.(endRx := false))
    else if f.endTx then (Some(EndTx), f.(endTx := false, endtxRaised := true))
    else (None, f)
  }

  function Pending(f: Flags): nat {
    (if f.endRx then 1 else 0) + (if f.endTx then 1 else 0)
  }

  /** Each reported event clears exactly one pending event, so polling
      until `None` stops after at most two reports. */
  lemma ClearEventProgress(f: Flags)
    ensures ClearEvent(f).0.Some? ==> Pending(ClearEvent(f).1) == Pending(f) - 1
    ensures Pending(f) <= 2
    ensures ClearEvent(f).1.endtxRaised == (f.endtxRaised || (f.endTx && !f.endRx))
  {
  }

  /** Polling the events until none is left. */
  function Drain(f: Flags): (r: (seq<UarteEvent>, Flags))
    ensures !r.1.endRx && !r.1.endTx
    decreases Pending(f)
  {
    var (ev, g) := ClearEvent(f);
    match ev
    case None => ([], g)
    case Some(e) =>
      ClearEventProgress(f);
      var (rest, h) := Drain(g);
      ([e] + rest, h)
  }

  /** The TX handshake: while a transaction runs (TXSTARTED and no ENDTX
      seen) a new one is refused; once the peripheral raises ENDTX and the
      interrupt handler has polled the events, a new one starts and clears
      TXSTARTED and `endtx_raised`. */
  lemma {:induction false} TxHandshake(f: Flags)
    requires f.txStarted && !f.endtxRaised
    ensures StartTxFlags(f).None?
    ensures var g := Drain(f.(endTx := true)).1;
      g.endtxRaised && g.txStarted && StartTxFlags(g) == Some(g.(txStarted := false, endtxRaised := false))
  {
    var f1 := f.(endTx := true);
    if f.endRx {
      var (_, f2) := ClearEvent(f1);
      assert f2 == f1.(endRx := false);
      var (_, f3) := ClearEvent(f2);
      assert f3 == f2.(endTx := false, endtxRaised := true);
      assert Drain(f3) == ([], f3);
      assert Drain(f1).1 == f3;
    } else {
      var (_, f2) := ClearEvent(f1);
      assert f2 == f1.(endTx := false, endtxRaised := true);
      assert Drain(f2) == ([], f2);
    }
  }

  /** Without ENDTX the handler's poll never unblocks the TX path. */
  lemma {:induction false} NoEndTxStaysBlocked(f: Flags)
    requires f.txStarted && !f.endtxRaised && !f.endTx
    ensures StartTxFlags(Drain(f).1).None?
    decreases Pending(f)
  {
    var (ev, g) := ClearEvent(f);
    if ev.Some? {
      ClearEventProgress(f);
      NoEndTxStaysBlocked(g);
    }
  }

  class TimeoutUarte {
    var eventsTxStarted: bool
    var eventsEndRx: bool
    var eventsEndTx: bool
    var endtxRaised: bool
    /** The bytes TXD.PTR points at. */
    var txd: seq<byte>
    var txdMaxcnt: u16
    /** RXD.AMOUNT: bytes received by the last RX transaction. */
    var rxdAmount: u16
    /** Every task triggered so far, oldest first. */
    var tasks: seq<Task>
    /** The static DMA receive buffer. */
    var buffer: array<byte>

    predicate Valid()
      reads this
    {
      buffer.Length == BufferSize
    }

    function FlagsOf(): Flags
      reads this
    {
      Flags(eventsTxStarted, eventsEndRx, eventsEndTx, endtxRaised)
    }

    /** The state `init` leaves: registers at reset, `endtx_raised` false and
        the first RX transaction started. */
    constructor (rx: array<byte>)
      requires rx.Length == BufferSize
      ensures Valid() && buffer == rx
      ensures FlagsOf() == Flags(false, false, false, false)
      ensures tasks == [StartRx] && txd == [] && txdMaxcnt == 0 && rxdAmount == 0
    {
      eventsTxStarted, eventsEndRx, eventsEndTx := false, false, false;
      endtxRaised := false;
      txd, txdMaxcnt, rxdAmount := [], 0, 0;
      buffer := rx;
      tasks := [StartRx];
    }

    method TryStartTx(bytes: seq<byte>) returns (r: Result<(), ()>)
      modifies this
      ensures buffer == old(buffer) && rxdAmount == old(rxdAmount)
      ensures r.Err? <==> StartTxFlags(old(FlagsOf())).None?
      ensures r.Err? ==> FlagsOf() == old(FlagsOf()) && txd == old(txd) && txdMaxcnt == old(txdMaxcnt) && tasks == old(tasks)
      ensures r.Ok? ==> Some(FlagsOf()) == StartTxFlags(old(FlagsOf()))
      ensures r.Ok? ==> txd == bytes && txdMaxcnt == AsU16(|bytes|) && tasks == old(tasks) + [StartTx]
    {
      if eventsTxStarted {
        if !endtxRaised {
          return Err(());
        }
        endtxRaised := false;
        eventsTxStarted := false;
      }
      var sliceLen := AsU16(|bytes|);
      txd := bytes;
      txdMaxcnt := sliceLen;
      tasks := tasks + [StartTx];
      r := Ok(());
    }

    method GetClearEvent() returns (ev: Option<UarteEvent>)
      modifies this
      ensures buffer == old(buffer) && rxdAmount == old(rxdAmount) && txd == old(txd) && txdMaxcnt == old(txdMaxcnt)
      ensures (ev, FlagsOf()) == ClearEvent(old(FlagsOf()))
      ensures tasks == if ev == Some(EndRx) then old(tasks) + [StartRx] else old(tasks)
    {
      if eventsEndRx {
        tasks := tasks + [StartRx];
        eventsEndRx := false;
        return Some(EndRx);
      }
      if eventsEndTx {
        eventsEndTx := false;
        endtxRaised := true;
        return Some(EndTx);
      }
      ev := None;
    }

    /** The received chunk `buffer[0..AMOUNT]`; an amount past the buffer's
        255 bytes fails the slice bounds check. */
    method GetRxChunk() returns (r: Run<seq<byte>>)
      requires Valid()
      ensures rxdAmount <= BufferSize ==> r == Done(buffer[..rxdAmount])
      ensures rxdAmount > BufferSize ==> r.Abort?
      ensures r.Done? ==> |r.value| == rxdAmount <= BufferSize
    {
      var chunkLen := rxdAmount;
      if chunkLen > buffer.Length {
        return Abort("range end index out of range for slice of length 255");
      }
      r := Done(buffer[0..chunkLen]);
    }
  }

  /** The ownership token of the DMA buffer. */
  datatype UarteRxBuffer = UarteRxBuffer

  /** The static `BUFFER_TAKEN` flag. */
  class BufferTaken {
    var taken: bool

    /** `AtomicBool::new(false)`. */
    constructor ()
      ensures !taken
    {
      taken := false;
    }

    /** `UarteRxBuffer::take`: the swap returns the old flag and leaves it
        set, so only the first call hands out the buffer. */
    method Take() returns (r: Option<UarteRxBuffer>)
      modifies this
      ensures taken
      ensures r.Some? <==> !old(taken)
    {
      var was := taken;
      taken := true;
      if was {
        return None;
      }
      r := Some(UarteRxBuffer);
    }
  }
}
