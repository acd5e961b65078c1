/**
  The duty-cycle transmit scheduler (gateway.py): per-source queues served round robin under a sliding
  60-second airtime budget. Time and airtime are exact reals; the clock only moves forward.
 */
module Gateway {
  import opened Bytes
  import opened Wrappers

  const WINDOW: real := 60.0

  // ---- airtime of one frame ----

  datatype RadioConfig = RadioConfig(bandwidthHz: int, spreadingFactor: int, codingRate: int)

  type Radio = r: RadioConfig | 5 <= r.spreadingFactor <= 12 && 5 <= r.codingRate <= 8 && r.bandwidthHz != 0
    witness RadioConfig(62_500, 7, 5)

  function Pow2(n: nat): nat {
    if n == 0 then 1 else 2 * Pow2(n - 1)
  }

  function PayloadSymbols(length: nat, r: Radio): (n: int)
    ensures n >= 8
  {
    var de := if r.spreadingFactor >= 11 then 1 else 0;
    var num := 8 * length - 4 * r.spreadingFactor + 28 + 16;
    var den := 4 * (r.spreadingFactor - 2 * de);
    var coded := (num + den - 1) / den * (r.codingRate + 4);
    8 + if coded > 0 then coded else 0
  }

  function SymbolSeconds(r: Radio): real {
    Pow2(r.spreadingFactor) as real / r.bandwidthHz as real
  }

  /** Preamble and payload symbols on the air, never less than a millisecond. */
  function TimeOnAir(symbols: int, symbolSeconds: real): (a: real)
    ensures a >= 0.001
  {
    var a := 12.25 * symbolSeconds + symbols as real * symbolSeconds;
    if a > 0.001 then a else 0.001
  }

  function AirtimeSeconds(length: nat, radio: Option<Radio>): (a: real)
    ensures a >= 0.001
  {
    match radio
    case None => 1.0
    case Some(r) => TimeOnAir(PayloadSymbols(length, r), SymbolSeconds(r))
  }

  lemma DivMonotone(x: int, y: int, d: int)
    requires x <= y && d > 0
    ensures x / d <= y / d
  {
    var p, q := x / d, y / d;
    assert d * p <= x && y < d * (q + 1);
    assert p >= q + 1 ==> d * p >= d * (q + 1);
  }

  lemma SymbolsMonotone(shorter: nat, longer: nat, r: Radio)
    requires shorter <= longer
    ensures PayloadSymbols(shorter, r) <= PayloadSymbols(longer, r)
  {
    var den := 4 * (r.spreadingFactor - 2 * if r.spreadingFactor >= 11 then 1 else 0);
    var x := 8 * shorter - 4 * r.spreadingFactor + 44 + den - 1;
    var y := 8 * longer - 4 * r.spreadingFactor + 44 + den - 1;
    DivMonotone(x, y, den);
    assert x / den * (r.codingRate + 4) <= y / den * (r.codingRate + 4);
  }

  /**
    The bits of header, payload and checksum still to be coded after the first eight symbols, and the bits of a block.
   */
  function BitsToCode(length: nat, r: Radio): int {
    8 * length + 44 - 4 * r.spreadingFactor
  }

  function BlockBits(r: Radio): int {
    if r.spreadingFactor >= 11 then 4 * r.spreadingFactor - 8 else 4 * r.spreadingFactor
  }

  /**
    A payload takes eight symbols and the fewest blocks, of four more symbols than the coding rate, that hold its bits.
   */
  lemma FewestBlocks(length: nat, r: Radio, blocks: nat)
    ensures PayloadSymbols(length, r) == 8 + blocks * (r.codingRate + 4) <==>
      BitsToCode(length, r) <= blocks * BlockBits(r)
        && (blocks > 0 ==> (blocks - 1) * BlockBits(r) < BitsToCode(length, r))
  {
    var bits, size := BitsToCode(length, r), BlockBits(r);
    var q := (bits + size - 1) / size;
    Ceiling(bits, size, blocks);
    SameProduct(if q > 0 then q else 0, blocks, r.codingRate + 4);
    assert q <= 0 ==> q * (r.codingRate + 4) <= 0;
  }

  lemma SameProduct(a: nat, b: nat, k: nat)
    requires k > 0
    ensures a * k == b * k <==> a == b
  {
    if a < b {
      assert (b - a) * k > 0;
    } else if b < a {
      assert (a - b) * k > 0;
    }
  }

  lemma Ceiling(bits: int, size: int, blocks: nat)
    requires size > 0
    ensures var q := (bits + size - 1) / size;
      blocks == (if q > 0 then q else 0) <==> bits <= blocks * size && (blocks > 0 ==> (blocks - 1) * size < bits)
  {
    var q := (bits + size - 1) / size;
    assert q * size <= bits + size - 1 < q * size + size;
    if blocks < q {
      assert blocks * size <= (q - 1) * size;
    } else if blocks > q {
      assert (blocks - 1) * size >= q * size;
    }
  }

  /** A longer payload never has less airtime, whatever the radio settings. */
  lemma AirtimeMonotone(shorter: nat, longer: nat, radio: Option<Radio>)
    requires shorter <= longer
    ensures AirtimeSeconds(shorter, radio) <= AirtimeSeconds(longer, radio)
  {
    if radio.Some? {
      SymbolsMonotone(shorter, longer, radio.value);
      TimeOnAirMonotone(PayloadSymbols(shorter, radio.value), PayloadSymbols(longer, radio.value),
                        SymbolSeconds(radio.value));
    }
  }

  lemma TimeOnAirMonotone(m: int, n: int, symbolSeconds: real)
    requires 0 <= m <= n
    ensures TimeOnAir(m, symbolSeconds) <= TimeOnAir(n, symbolSeconds)
  {
    Scaled(m as real, n as real, symbolSeconds);
  }

  lemma Scaled(m: real, n: real, k: real)
    requires 0.0 <= m <= n
    ensures k >= 0.0 ==> m * k <= n * k
    ensures k < 0.0 ==> m * k <= 0.0 && n * k <= 0.0
  {
  }

  /**
    Twelve and a quarter symbols of preamble and the payload's, but at least a millisecond; a second if the radio is
    unknown.
   */
  lemma AirtimeExactly(length: nat, r: Radio)
    ensures AirtimeSeconds(length, None) == 1.0
    ensures var a := (12.25 + PayloadSymbols(length, r) as real) * SymbolSeconds(r);
      AirtimeSeconds(length, Some(r)) == if a > 0.001 then a else 0.001
  {
    TimeOnAirIs(PayloadSymbols(length, r), SymbolSeconds(r));
  }

  /** A symbol is 2 ** SF chips, of which the bandwidth says how many go in a second. */
  lemma SymbolExactly(r: Radio)
    ensures SymbolSeconds(r) * r.bandwidthHz as real == Pow2(r.spreadingFactor) as real
    ensures Pow2(5) == 32 && Pow2(6) == 64 && Pow2(7) == 128 && Pow2(8) == 256
    ensures Pow2(9) == 512 && Pow2(10) == 1024 && Pow2(11) == 2048 && Pow2(12) == 4096
  {
    PowersOfTwo();
    Quotient(Pow2(r.spreadingFactor) as real, r.bandwidthHz as real);
  }

  lemma Quotient(x: real, y: real)
    requires y != 0.0
    ensures x / y * y == x
  {
  }

  lemma TimeOnAirIs(symbols: int, symbolSeconds: real)
    ensures var a := (12.25 + symbols as real) * symbolSeconds;
      TimeOnAir(symbols, symbolSeconds) == if a > 0.001 then a else 0.001
  {
    Distribute(symbols as real, symbolSeconds);
  }

  lemma Distribute(n: real, k: real)
    ensures 12.25 * k + n * k == (12.25 + n) * k
  {
  }

  lemma PowersOfTwo()
    ensures Pow2(5) == 32 && Pow2(6) == 64 && Pow2(7) == 128 && Pow2(8) == 256
    ensures Pow2(9) == 512 && Pow2(10) == 1024 && Pow2(11) == 2048 && Pow2(12) == 4096
  {
    assert Pow2(3) == 8;
    assert Pow2(6) == 64;
    assert Pow2(9) == 512;
  }

  const DEFAULT_DUTY_CYCLE: real := 0.10

  /** In the Dutch preset every frame of up to 255 bytes fits the default budget, so a default gateway drains them. */
  lemma DefaultFrameFits(length: nat)
    requires length <= 255
    ensures AirtimeSeconds(length, Some(RadioConfig(62_500, 7, 5))) <= WINDOW * DEFAULT_DUTY_CYCLE
  {
    var nl := RadioConfig(62_500, 7, 5);
    AirtimeMonotone(length, 255, Some(nl));
    assert Pow2(7) == 128 by {
      assert Pow2(4) == 16;
    }
    assert SymbolSeconds(nl) == 128.0 / 62_500.0;
    assert PayloadSymbols(255, nl) == 674;
  }

  // ---- the sliding window, as a property of what was sent ----

  type Source = string
  datatype Entry = Entry(at: real, air: real)

  /** A transmission: when the budget admitted it, and the ledger entry recorded after it drained. */
  datatype Tx = Tx(source: Source, payload: bytes, admitted: real, entry: Entry)

  function Sum(usage: seq<Entry>): real {
    if usage == [] then 0.0 else Sum(usage[..|usage| - 1]) + usage[|usage| - 1].air
  }

  /** Airtime of the transmissions recorded in [from, from + WINDOW). */
  function WindowAir(sent: seq<Tx>, from: real): real {
    if sent == [] then 0.0
    else
      var last := sent[|sent| - 1].entry;
      WindowAir(sent[..|sent| - 1], from) + if from <= last.at < from + WINDOW then last.air else 0.0
  }

  /** Airtime of the transmissions not yet expired at `now`. */
  function LiveAir(sent: seq<Tx>, now: real): real {
    if sent == [] then 0.0
    else
      var last := sent[|sent| - 1].entry;
      LiveAir(sent[..|sent| - 1], now) + if now - last.at < WINDOW then last.air else 0.0
  }

  /** Each transmission was admitted, no later than it was recorded, on the strength of what was then live. */
  ghost predicate Paced(sent: seq<Tx>, budget: real) {
    forall i :: 0 <= i < |sent| ==> Admitted(sent, i, budget)
  }

  ghost predicate Admitted(sent: seq<Tx>, i: nat, budget: real)
    requires i < |sent|
  {
    && sent[i].admitted <= sent[i].entry.at
    && sent[i].entry.air > 0.0
    && LiveAir(sent[..i], sent[i].admitted) + sent[i].entry.air <= budget
  }

  lemma PacedPrefix(sent: seq<Tx>, budget: real)
    requires sent != [] && Paced(sent, budget)
    ensures Paced(sent[..|sent| - 1], budget)
  {
    var prefix := sent[..|sent| - 1];
    forall i | 0 <= i < |prefix| ensures Admitted(prefix, i, budget) {
      assert Admitted(sent, i, budget) && sent[..i] == prefix[..i];
    }
  }

  lemma PacedExtend(sent: seq<Tx>, tx: Tx, budget: real)
    requires Paced(sent, budget)
    requires tx.admitted <= tx.entry.at && tx.entry.air > 0.0 && LiveAir(sent, tx.admitted) + tx.entry.air <= budget
    ensures Paced(sent + [tx], budget)
  {
    var more := sent + [tx];
    forall i | 0 <= i < |more| ensures Admitted(more, i, budget) {
      if i < |sent| {
        assert Admitted(sent, i, budget) && more[..i] == sent[..i];
      } else {
        assert more[..i] == sent;
      }
    }
  }

  /** What falls in a window that a later instant closes is still live at any instant inside it. */
  lemma {:induction false} WindowWithinLive(sent: seq<Tx>, from: real, now: real, budget: real)
    requires Paced(sent, budget) && now < from + WINDOW
    ensures 0.0 <= WindowAir(sent, from) <= LiveAir(sent, now)
  {
    if sent != [] {
      PacedPrefix(sent, budget);
      WindowWithinLive(sent[..|sent| - 1], from, now, budget);
      assert Admitted(sent, |sent| - 1, budget);
    }
  }

  /**
    Duty-cycle safety: in every half-open interval one window long, the airtimes recorded in it sum to at
    most the budget - for any arrivals, any airtimes and any non-decreasing clock.
   */
  lemma {:induction false} PacedIsSafe(sent: seq<Tx>, budget: real, from: real)
    requires Paced(sent, budget) && budget >= 0.0
    ensures WindowAir(sent, from) <= budget
    decreases |sent|
  {
    if sent != [] {
      var n := |sent| - 1;
      PacedPrefix(sent, budget);
      if from <= sent[n].entry.at < from + WINDOW {
        assert Admitted(sent, n, budget);
        WindowWithinLive(sent[..n], from, sent[n].admitted, budget);
      } else {
        PacedIsSafe(sent[..n], budget, from);
      }
    }
  }

  /** Nothing heavier than the whole budget is ever admitted. */
  lemma AdmittedFits(sent: seq<Tx>, budget: real, i: nat)
    requires Paced(sent, budget) && i < |sent|
    ensures sent[i].entry.air <= budget
  {
    assert Admitted(sent, i, budget);
    PacedTake(sent, budget, i);
    WindowWithinLive(sent[..i], sent[i].admitted, sent[i].admitted, budget);
  }

  lemma {:induction false} PacedTake(sent: seq<Tx>, budget: real, i: nat)
    requires Paced(sent, budget) && i <= |sent|
    ensures Paced(sent[..i], budget)
  {
    forall k | 0 <= k < i ensures Admitted(sent[..i], k, budget) {
      assert Admitted(sent, k, budget) && sent[..i][..k] == sent[..k];
    }
  }

  // ---- the closed interval ----

  /** Airtime of the transmissions recorded in [from, from + WINDOW], both ends included. */
  function ClosedAir(sent: seq<Tx>, from: real): real {
    if sent == [] then 0.0
    else
      var last := sent[|sent| - 1].entry;
      ClosedAir(sent[..|sent| - 1], from) + if from <= last.at <= from + WINDOW then last.air else 0.0
  }

  /** The airtime booked for a transmission is that of its payload. */
  ghost predicate Weighed(sent: seq<Tx>, radio: Option<Radio>) {
    forall i :: 0 <= i < |sent| ==> sent[i].entry.air == AirtimeSeconds(|sent[i].payload|, radio)
  }

  /** Empty payloads are never sent, and the clock does not go back. */
  ghost predicate Regular(sent: seq<Tx>) {
    && (forall i :: 0 <= i < |sent| ==> sent[i].payload != [])
    && (forall i, j :: 0 <= i < j < |sent| ==> sent[i].entry.at <= sent[j].entry.at)
  }

  /** A history that the budget admitted exceeds it in the closed interval from here. */
  ghost predicate ClosedExceeds(sent: seq<Tx>, from: real, radio: Option<Radio>, budget: real) {
    Regular(sent) && Weighed(sent, radio) && Paced(sent, budget) && ClosedAir(sent, from) > budget
  }

  ghost predicate AllSame(sent: seq<Tx>, tx: Tx) {
    forall i :: 0 <= i < |sent| ==> sent[i] == tx
  }

  /** The same transmission over and over, at one instant, until the budget admits no more. */
  ghost function Filled(sent: seq<Tx>, tx: Tx, budget: real): (full: seq<Tx>)
    requires Paced(sent, budget) && AllSame(sent, tx) && tx.admitted == tx.entry.at && tx.entry.air >= 0.001
    ensures Paced(full, budget) && AllSame(full, tx) && LiveAir(full, tx.entry.at) + tx.entry.air > budget
    decreases 1000.0 * (budget - LiveAir(sent, tx.entry.at))
  {
    if LiveAir(sent, tx.entry.at) + tx.entry.air > budget then sent
    else
      PacedExtend(sent, tx, budget);
      assert (sent + [tx])[..|sent|] == sent;
      Filled(sent + [tx], tx, budget)
  }

  /** Transmissions of one instant all lie in the closed interval from it, and have all expired a window later. */
  lemma {:induction false} SameInstant(sent: seq<Tx>, tx: Tx)
    requires AllSame(sent, tx)
    ensures ClosedAir(sent, tx.entry.at) == LiveAir(sent, tx.entry.at) && LiveAir(sent, tx.entry.at + WINDOW) == 0.0
  {
    if sent != [] {
      SameInstant(sent[..|sent| - 1], tx);
    }
  }

  /** A transmission of this payload at this instant. */
  function SentAt(payload: bytes, radio: Option<Radio>, at: real): Tx {
    Tx("a", payload, at, Entry(at, AirtimeSeconds(|payload|, radio)))
  }

  /** As many copies of a payload as the budget admits at once, and one more exactly one window later. */
  ghost function Straddling(payload: bytes, radio: Option<Radio>, budget: real): seq<Tx> {
    Filled([], SentAt(payload, radio, 0.0), budget) + [SentAt(payload, radio, WINDOW)]
  }

  /** Any payload that fits the budget can exceed it in a closed interval. */
  lemma ClosedWindowCanExceed(payload: bytes, radio: Option<Radio>, budget: real)
    requires payload != [] && AirtimeSeconds(|payload|, radio) <= budget
    ensures ClosedExceeds(Straddling(payload, radio, budget), 0.0, radio, budget)
  {
    var first, last := SentAt(payload, radio, 0.0), SentAt(payload, radio, WINDOW);
    var full := Filled([], first, budget);
    SameInstant(full, first);
    PacedExtend(full, last, budget);
    assert (full + [last])[..|full|] == full;
  }

  /**
    Half-open is exact: some history exceeds the budget in some closed interval if and only if a gateway with that
    budget can send at all, that is, if and only if a payload of one byte fits.
   */
  lemma ClosedWindowExactly(radio: Option<Radio>, budget: real)
    requires budget >= 0.0
    ensures (exists sent, from :: ClosedExceeds(sent, from, radio, budget)) <==> AirtimeSeconds(1, radio) <= budget
  {
    if AirtimeSeconds(1, radio) <= budget {
      ClosedWindowCanExceed([0], radio, budget);
    }
    if sent: seq<Tx>, from: real :| ClosedExceeds(sent, from, radio, budget) {
      AdmittedFits(sent, budget, 0);
      AirtimeMonotone(1, |sent[0].payload|, radio);
    }
  }

  // ---- the ledger holds exactly what is live ----

  /** `usage` lists the ledger entries of everything sent after the first `expired` transmissions. */
  ghost predicate Tracks(usage: seq<Entry>, sent: seq<Tx>, expired: nat) {
    && expired + |usage| == |sent|
    && forall i :: 0 <= i < |usage| ==> usage[i] == sent[expired + i].entry
  }

  lemma {:induction false} LedgerIsLive(usage: seq<Entry>, sent: seq<Tx>, expired: nat, now: real)
    requires Tracks(usage, sent, expired)
    requires forall i :: 0 <= i < expired ==> now - sent[i].entry.at >= WINDOW
    requires forall i :: 0 <= i < |usage| ==> now - usage[i].at < WINDOW
    ensures LiveAir(sent, now) == Sum(usage)
    decreases |sent|
  {
    if sent != [] {
      var n := |sent| - 1;
      if usage == [] {
        LedgerIsLive([], sent[..n], expired - 1, now);
      } else {
        LedgerIsLive(usage[..|usage| - 1], sent[..n], expired, now);
      }
    }
  }

  lemma {:induction false} SumHead(usage: seq<Entry>)
    requires usage != []
    ensures Sum(usage) == usage[0].air + Sum(usage[1..])
  {
    if |usage| > 1 {
      var n := |usage| - 1;
      SumHead(usage[..n]);
      assert usage[..n][1..] == usage[1..][..n - 1];
    }
  }

  /** Every entry weighs at least a millisecond, so the ledger is short. */
  lemma {:induction false} LedgerIsShort(usage: seq<Entry>)
    requires forall e :: e in usage ==> e.air >= 0.001
    ensures |usage| as real * 0.001 <= Sum(usage)
  {
    if usage != [] {
      var n := |usage| - 1;
      LedgerIsShort(usage[..n]);
      assert (n + 1) as real * 0.001 == n as real * 0.001 + 0.001;
    }
  }

  /**
    The ledger invariant at time `now`: `used` is the sum of `usage`, `usage` is the time-sorted tail of
    what was sent, everything before that tail has expired, and everything sent was paced.
   */
  ghost predicate Ledger(used: real, usage: seq<Entry>, sent: seq<Tx>, expired: nat, now: real, budget: real) {
    && used == Sum(usage) <= budget
    && Tracks(usage, sent, expired)
    && (forall i :: 0 <= i < expired ==> now - sent[i].entry.at >= WINDOW)
    && (forall i :: 0 <= i < |sent| ==> sent[i].entry.at <= now && sent[i].entry.air >= 0.001)
    && (forall i, j :: 0 <= i < j < |sent| ==> sent[i].entry.at <= sent[j].entry.at)
    && Paced(sent, budget)
  }

  lemma LedgerWeights(used: real, usage: seq<Entry>, sent: seq<Tx>, expired: nat, now: real, budget: real)
    requires Ledger(used, usage, sent, expired, now, budget)
    ensures |usage| as real * 0.001 <= used <= budget
    ensures usage != [] ==> used - usage[0].air >= 0.0
  {
    forall e | e in usage ensures e.air >= 0.001 {
      var i :| 0 <= i < |usage| && usage[i] == e;
      assert e == sent[expired + i].entry;
    }
    LedgerIsShort(usage);
    if usage != [] {
      SumHead(usage);
      LedgerIsShort(usage[1..]);
    }
  }

  /** Dropping the oldest entry once it is a window old. */
  lemma LedgerExpire(used: real, usage: seq<Entry>, sent: seq<Tx>, expired: nat, now: real, budget: real)
    requires Ledger(used, usage, sent, expired, now, budget)
    requires usage != [] && now - usage[0].at >= WINDOW
    ensures used - usage[0].air >= 0.0
    ensures Ledger(used - usage[0].air, usage[1..], sent, expired + 1, now, budget)
  {
    LedgerWeights(used, usage, sent, expired, now, budget);
    SumHead(usage);
    assert usage[0] == sent[expired].entry;
    assert usage[0].air >= 0.001;
  }

  /** Once the oldest entry is live, all are. */
  lemma LedgerAllLive(used: real, usage: seq<Entry>, sent: seq<Tx>, expired: nat, now: real, budget: real)
    requires Ledger(used, usage, sent, expired, now, budget)
    requires usage != [] ==> now - usage[0].at < WINDOW
    ensures forall i :: 0 <= i < |usage| ==> now - usage[i].at < WINDOW
  {
    forall i | 0 <= i < |usage| ensures now - usage[i].at < WINDOW {
      assert usage[0] == sent[expired].entry && usage[i] == sent[expired + i].entry;
    }
  }

  /** Booking a transmission admitted at `now`, with the ledger purged, and recorded at `ts`. */
  lemma LedgerSend(used: real, usage: seq<Entry>, sent: seq<Tx>, expired: nat, now: real, budget: real, tx: Tx)
    requires Ledger(used, usage, sent, expired, now, budget)
    requires forall i :: 0 <= i < |usage| ==> now - usage[i].at < WINDOW
    requires tx.admitted == now <= tx.entry.at && tx.entry.air >= 0.001 && used + tx.entry.air <= budget
    ensures Ledger(used + tx.entry.air, usage + [tx.entry], sent + [tx], expired, tx.entry.at, budget)
  {
    LedgerIsLive(usage, sent, expired, now);
    PacedExtend(sent, tx, budget);
    assert (usage + [tx.entry])[..|usage|] == usage;
  }

  // ---- how long the budget refuses a frame ----

  /** With this much already live, the budget has no room for a frame of this airtime. */
  predicate Refused(sent: seq<Tx>, t: real, air: real, budget: real) {
    LiveAir(sent, t) + air > budget
  }

  lemma {:induction false} LiveAirFalls(sent: seq<Tx>, now: real, later: real)
    requires now <= later && forall i :: 0 <= i < |sent| ==> sent[i].entry.air >= 0.0
    ensures LiveAir(sent, later) <= LiveAir(sent, now)
  {
    if sent != [] {
      LiveAirFalls(sent[..|sent| - 1], now, later);
    }
  }

  /**
    What is refused now goes on being refused until the oldest entry of the ledger expires, or for ever if there is
    none.
   */
  lemma RefusedUntil(used: real, usage: seq<Entry>, sent: seq<Tx>, expired: nat, now: real, budget: real, t: real,
                     air: real)
    requires Ledger(used, usage, sent, expired, now, budget) && used + air > budget && now <= t
    requires usage != [] ==> t - usage[0].at < WINDOW
    ensures Refused(sent, t, air, budget)
  {
    LedgerAllLive(used, usage, sent, expired, t, budget);
    LedgerIsLive(usage, sent, expired, t);
  }

  /** Woken at this time, a payload of this airtime has not been kept waiting more than 10 ms since it could be sent. */
  ghost predicate WokenInTime(sent: seq<Tx>, since: real, air: real, budget: real, woken: real) {
    forall t :: since <= t && !Refused(sent, t, air, budget) ==> woken <= t + 0.01
  }

  /** What is refused now was refused before. */
  lemma WokenSince(used: real, usage: seq<Entry>, sent: seq<Tx>, expired: nat, later: real, budget: real,
                   since: real, now: real, air: real, woken: real, earlier: real)
    requires Ledger(used, usage, sent, expired, later, budget) && since <= now && earlier <= woken
    requires Refused(sent, now, air, budget) && WokenInTime(sent, now, air, budget, woken)
    ensures WokenInTime(sent, since, air, budget, earlier)
  {
    forall t | since <= t && !Refused(sent, t, air, budget) ensures earlier <= t + 0.01 {
      if t < now {
        LiveAirFalls(sent, t, now);
      }
    }
  }

  /** How many ledger entries have not expired at `now`. */
  function Unexpired(usage: seq<Entry>, now: real): nat {
    if usage == [] then 0
    else Unexpired(usage[1..], now) + if now - usage[0].at < WINDOW then 1 else 0
  }

  lemma {:induction false} UnexpiredFalls(usage: seq<Entry>, now: real, later: real)
    requires now <= later
    ensures Unexpired(usage, later) <= Unexpired(usage, now)
    ensures usage != [] && now - usage[0].at < WINDOW <= later - usage[0].at ==>
      Unexpired(usage, later) < Unexpired(usage, now)
  {
    if usage != [] {
      UnexpiredFalls(usage[1..], now, later);
    }
  }

  // ---- round robin over frozen queues ----

  type Queues = map<Source, seq<bytes>>

  /** `order` lists exactly the keys of `queues`, once each, and no queue is empty. */
  ghost predicate Scheduled(order: seq<Source>, queues: Queues) {
    && (forall i, j :: 0 <= i < j < |order| ==> order[i] != order[j])
    && (forall s :: s in queues <==> s in order)
    && (forall s :: s in queues ==> queues[s] != [])
  }

  function RemoveFirst(order: seq<Source>, s: Source): seq<Source> {
    if order == [] then [] else if order[0] == s then order[1..] else [order[0]] + RemoveFirst(order[1..], s)
  }

  lemma {:induction false} RemoveFirstLast(order: seq<Source>, s: Source)
    requires s !in order
    ensures RemoveFirst(order + [s], s) == order
  {
    if order != [] {
      assert (order + [s])[1..] == order[1..] + [s];
      RemoveFirstLast(order[1..], s);
    }
  }

  /** Queued payloads of the listed sources. */
  function Queued(order: seq<Source>, queues: Queues): nat {
    if order == [] then 0
    else (if order[0] in queues then |queues[order[0]]| else 0) + Queued(order[1..], queues)
  }

  lemma {:induction false} QueuedElsewhere(order: seq<Source>, queues: Queues, queues': Queues)
    requires forall s :: s in order ==> s in queues && s in queues' && queues[s] == queues'[s]
    ensures Queued(order, queues) == Queued(order, queues')
  {
    if order != [] {
      QueuedElsewhere(order[1..], queues, queues');
    }
  }

  lemma {:induction false} QueuedSnoc(order: seq<Source>, s: Source, queues: Queues)
    requires s in queues
    ensures Queued(order + [s], queues) == Queued(order, queues) + |queues[s]|
  {
    if order != [] {
      assert (order + [s])[1..] == order[1..] + [s];
      QueuedSnoc(order[1..], s, queues);
    }
  }

  function OrderAfter(order: seq<Source>, queues: Queues): seq<Source>
    requires order != [] && order[0] in queues
  {
    if |queues[order[0]]| > 1 then order[1..] + [order[0]] else order[1..]
  }

  function QueuesAfter(order: seq<Source>, queues: Queues): Queues
    requires order != [] && order[0] in queues && queues[order[0]] != []
  {
    var s := order[0];
    if |queues[s]| > 1 then queues[s := queues[s][1..]] else queues - {s}
  }

  lemma ServeKeepsSchedule(order: seq<Source>, queues: Queues)
    requires Scheduled(order, queues) && order != []
    ensures Scheduled(OrderAfter(order, queues), QueuesAfter(order, queues))
    ensures Queued(OrderAfter(order, queues), QueuesAfter(order, queues)) == Queued(order, queues) - 1
  {
    var s, rest, q := order[0], order[1..], queues[order[0]];
    var queues' := QueuesAfter(order, queues);
    assert s !in rest;
    QueuedElsewhere(rest, queues, queues');
    if |q| > 1 {
      QueuedSnoc(rest, s, queues');
    }
  }

  datatype Send = Send(source: Source, payload: bytes)

  /** What serving the head of the queue of the head of the order, over and over, transmits. */
  ghost function Plan(order: seq<Source>, queues: Queues): seq<Send>
    requires Scheduled(order, queues)
    decreases Queued(order, queues)
  {
    if order == [] then []
    else
      ServeKeepsSchedule(order, queues);
      [Send(order[0], queues[order[0]][0])] + Plan(OrderAfter(order, queues), QueuesAfter(order, queues))
  }

  // ---- the same, as a table read row by row ----

  /** The turn-th payload of the source at position pos. */
  datatype Slot = Slot(turn: nat, pos: nat)

  ghost function Longest(order: seq<Source>, queues: Queues): (n: nat)
    requires forall s :: s in order ==> s in queues
    ensures forall s :: s in order ==> |queues[s]| <= n
  {
    if order == [] then 0
    else
      var n := Longest(order[1..], queues);
      if |queues[order[0]]| > n then |queues[order[0]]| else n
  }

  /** All slots from (turn, pos) on, turn by turn, each turn in the order of the sources. */
  ghost function SlotsFrom(order: seq<Source>, queues: Queues, turn: nat, pos: nat): seq<Slot>
    requires Scheduled(order, queues) && pos <= |order|
    decreases Longest(order, queues) - turn, |order| - pos
  {
    if pos < |order| then
      (if turn < |queues[order[pos]]| then [Slot(turn, pos)] else []) + SlotsFrom(order, queues, turn, pos + 1)
    else if turn < Longest(order, queues) then SlotsFrom(order, queues, turn + 1, 0)
    else []
  }

  predicate Earlier(a: Slot, b: Slot) {
    a.turn < b.turn || (a.turn == b.turn && a.pos < b.pos)
  }

  ghost predicate InOrder(slots: seq<Slot>) {
    forall i, j :: 0 <= i < j < |slots| ==> Earlier(slots[i], slots[j])
  }

  predicate IsSlot(order: seq<Source>, queues: Queues, s: Slot) {
    s.pos < |order| && order[s.pos] in queues && s.turn < |queues[order[s.pos]]|
  }

  function Sends(order: seq<Source>, queues: Queues, slots: seq<Slot>): seq<Send>
    requires forall s :: s in slots ==> IsSlot(order, queues, s)
  {
    assert forall i :: 0 <= i < |slots| ==> IsSlot(order, queues, slots[i]);
    seq(|slots|, i requires 0 <= i < |slots| && IsSlot(order, queues, slots[i]) =>
      Send(order[slots[i].pos], queues[order[slots[i].pos]][slots[i].turn]))
  }

  lemma {:induction false} SlotsMembers(order: seq<Source>, queues: Queues, turn: nat, pos: nat)
    requires Scheduled(order, queues) && pos <= |order|
    ensures forall s :: s in SlotsFrom(order, queues, turn, pos) <==>
      IsSlot(order, queues, s) && !Earlier(s, Slot(turn, pos))
    decreases Longest(order, queues) - turn, |order| - pos
  {
    if pos < |order| {
      SlotsMembers(order, queues, turn, pos + 1);
      forall s ensures !Earlier(s, Slot(turn, pos)) <==> s == Slot(turn, pos) || !Earlier(s, Slot(turn, pos + 1)) {
      }
    } else if turn < Longest(order, queues) {
      SlotsMembers(order, queues, turn + 1, 0);
    } else {
      forall s | IsSlot(order, queues, s) ensures Earlier(s, Slot(turn, pos)) {
        assert order[s.pos] in order;
      }
    }
  }

  lemma {:induction false} SlotsSorted(order: seq<Source>, queues: Queues, turn: nat, pos: nat)
    requires Scheduled(order, queues) && pos <= |order|
    ensures InOrder(SlotsFrom(order, queues, turn, pos))
    decreases Longest(order, queues) - turn, |order| - pos
  {
    var slots := SlotsFrom(order, queues, turn, pos);
    if pos < |order| {
      SlotsSorted(order, queues, turn, pos + 1);
      var rest := SlotsFrom(order, queues, turn, pos + 1);
      if turn < |queues[order[pos]]| {
        SlotsMembers(order, queues, turn, pos + 1);
        forall s | s in rest ensures Earlier(Slot(turn, pos), s) {
          assert !Earlier(s, Slot(turn, pos + 1));
        }
        ConsSorted(Slot(turn, pos), rest);
        assert slots == [Slot(turn, pos)] + rest;
      } else {
        assert slots == rest;
      }
    } else if turn < Longest(order, queues) {
      SlotsSorted(order, queues, turn + 1, 0);
    }
  }

  lemma ConsSorted(first: Slot, rest: seq<Slot>)
    requires forall s :: s in rest ==> Earlier(first, s)
    requires InOrder(rest)
    ensures InOrder([first] + rest)
  {
    var slots := [first] + rest;
    forall i, j | 0 <= i < j < |slots| ensures Earlier(slots[i], slots[j]) {
      assert slots[j] == rest[j - 1] && rest[j - 1] in rest;
      assert i > 0 ==> slots[i] == rest[i - 1];
    }
  }

  /**
    The table lists every payload of every source exactly once, turn by turn: the k-th payload of every
    source before the (k+1)-th of any, ties in the initial order.
   */
  lemma RoundRobinExact(order: seq<Source>, queues: Queues)
    requires Scheduled(order, queues)
    ensures var slots := SlotsFrom(order, queues, 0, 0);
      && (forall s :: s in slots <==> IsSlot(order, queues, s))
      && InOrder(slots)
      && RoundRobin(order, queues) == Sends(order, queues, slots)
  {
    SlotsMembers(order, queues, 0, 0);
    SlotsSorted(order, queues, 0, 0);
  }

  lemma SlotsAreSlots(order: seq<Source>, queues: Queues, turn: nat, pos: nat)
    requires Scheduled(order, queues) && pos <= |order|
    ensures forall s :: s in SlotsFrom(order, queues, turn, pos) ==> IsSlot(order, queues, s)
  {
    SlotsMembers(order, queues, turn, pos);
  }

  /** The sources among `list` with more than k payloads, in place. */
  ghost function Alive(list: seq<Source>, queues: Queues, k: nat): seq<Source> {
    if list == [] then []
    else (if list[0] in queues && |queues[list[0]]| > k then [list[0]] else []) + Alive(list[1..], queues, k)
  }

  lemma {:induction false} AliveSnoc(list: seq<Source>, s: Source, queues: Queues, k: nat)
    ensures Alive(list + [s], queues, k) ==
      Alive(list, queues, k) + if s in queues && |queues[s]| > k then [s] else []
  {
    if list == [] {
      assert list + [s] == [s] && [s][1..] == [];
    } else {
      assert (list + [s])[1..] == list[1..] + [s];
      AliveSnoc(list[1..], s, queues, k);
    }
  }

  lemma {:induction false} NoneAlive(list: seq<Source>, queues: Queues, k: nat)
    requires forall s :: s in list ==> s in queues && |queues[s]| <= k
    ensures Alive(list, queues, k) == []
  {
    if list != [] {
      NoneAlive(list[1..], queues, k);
    }
  }

  /** The scheduler's state just before slot (turn, pos). */
  ghost function OrderAt(order: seq<Source>, queues: Queues, turn: nat, pos: nat): seq<Source>
    requires pos <= |order|
  {
    Alive(order[pos..], queues, turn) + Alive(order[..pos], queues, turn + 1)
  }

  ghost function Served(order: seq<Source>, turn: nat, pos: nat, s: Source): nat
    requires pos <= |order|
  {
    if s in order[..pos] then turn + 1 else turn
  }

  ghost function QueuesAt(order: seq<Source>, queues: Queues, turn: nat, pos: nat): Queues
    requires pos <= |order|
  {
    map s | s in queues && Served(order, turn, pos, s) < |queues[s]| :: queues[s][Served(order, turn, pos, s)..]
  }

  lemma OrderAdvances(order: seq<Source>, queues: Queues, turn: nat, pos: nat)
    requires Scheduled(order, queues) && pos < |order| && turn < |queues[order[pos]]|
    ensures var s, now := order[pos], OrderAt(order, queues, turn, pos);
      now != [] && now[0] == s
      && OrderAt(order, queues, turn, pos + 1) == if |queues[s]| > turn + 1 then now[1..] + [s] else now[1..]
  {
    var s, now := order[pos], OrderAt(order, queues, turn, pos);
    assert order[pos..][1..] == order[pos + 1..];
    assert order[..pos + 1] == order[..pos] + [s];
    AliveSnoc(order[..pos], s, queues, turn + 1);
    assert now[1..] == Alive(order[pos + 1..], queues, turn) + Alive(order[..pos], queues, turn + 1);
  }

  lemma QueuesAdvance(order: seq<Source>, queues: Queues, turn: nat, pos: nat)
    requires Scheduled(order, queues) && pos < |order| && turn < |queues[order[pos]]|
    ensures var s, q := order[pos], QueuesAt(order, queues, turn, pos);
      s in q && q[s] == queues[s][turn..]
      && QueuesAt(order, queues, turn, pos + 1) == if |q[s]| > 1 then q[s := q[s][1..]] else q - {s}
  {
    var s, q := order[pos], QueuesAt(order, queues, turn, pos);
    assert order[..pos + 1] == order[..pos] + [s];
    assert s !in order[..pos];
    assert q[s][1..] == queues[s][turn + 1..];
  }

  lemma ServeAdvancesSlot(order: seq<Source>, queues: Queues, turn: nat, pos: nat, now: seq<Source>, q: Queues)
    requires Scheduled(order, queues) && pos < |order| && turn < |queues[order[pos]]|
    requires now == OrderAt(order, queues, turn, pos) && q == QueuesAt(order, queues, turn, pos)
    ensures now != [] && now[0] == order[pos] && now[0] in q && q[now[0]] != []
    ensures q[now[0]][0] == queues[order[pos]][turn]
    ensures OrderAfter(now, q) == OrderAt(order, queues, turn, pos + 1)
    ensures QueuesAfter(now, q) == QueuesAt(order, queues, turn, pos + 1)
  {
    OrderAdvances(order, queues, turn, pos);
    QueuesAdvance(order, queues, turn, pos);
  }

  lemma SkipKeepsOrder(order: seq<Source>, queues: Queues, turn: nat, pos: nat)
    requires Scheduled(order, queues) && pos < |order| && turn >= |queues[order[pos]]|
    ensures OrderAt(order, queues, turn, pos) == OrderAt(order, queues, turn, pos + 1)
  {
    assert order[pos..][1..] == order[pos + 1..];
    assert order[..pos + 1] == order[..pos] + [order[pos]];
    AliveSnoc(order[..pos], order[pos], queues, turn + 1);
  }

  lemma SkipKeepsQueues(order: seq<Source>, queues: Queues, turn: nat, pos: nat)
    requires Scheduled(order, queues) && pos < |order| && turn >= |queues[order[pos]]|
    ensures QueuesAt(order, queues, turn, pos) == QueuesAt(order, queues, turn, pos + 1)
  {
    assert order[..pos + 1] == order[..pos] + [order[pos]];
  }

  lemma TurnWraps(order: seq<Source>, queues: Queues, turn: nat)
    requires Scheduled(order, queues)
    ensures OrderAt(order, queues, turn, |order|) == OrderAt(order, queues, turn + 1, 0)
    ensures QueuesAt(order, queues, turn, |order|) == QueuesAt(order, queues, turn + 1, 0)
  {
    assert order[|order|..] == [] && order[..|order|] == order && order[0..] == order && order[..0] == [];
  }

  lemma SendsCons(order: seq<Source>, queues: Queues, s: Slot, rest: seq<Slot>)
    requires IsSlot(order, queues, s) && forall t :: t in rest ==> IsSlot(order, queues, t)
    ensures Sends(order, queues, [s] + rest) ==
      [Send(order[s.pos], queues[order[s.pos]][s.turn])] + Sends(order, queues, rest)
  {
  }

  /** One served slot: the plan and the table move on together. */
  lemma PlanReadsSlot(order: seq<Source>, queues: Queues, turn: nat, pos: nat, now: seq<Source>, q: Queues,
                      rest: seq<Slot>)
    requires Scheduled(now, q) && now != []
    requires IsSlot(order, queues, Slot(turn, pos)) && forall s :: s in rest ==> IsSlot(order, queues, s)
    requires now[0] == order[pos] && q[now[0]][0] == queues[order[pos]][turn]
    requires Scheduled(OrderAfter(now, q), QueuesAfter(now, q))
    requires Plan(OrderAfter(now, q), QueuesAfter(now, q)) == Sends(order, queues, rest)
    ensures Plan(now, q) == Sends(order, queues, [Slot(turn, pos)] + rest)
  {
    SendsCons(order, queues, Slot(turn, pos), rest);
  }

  /** From any slot on, the rotating scheduler transmits the rest of the table. */
  lemma {:induction false} PlanReadsTable(order: seq<Source>, queues: Queues, turn: nat, pos: nat, now: seq<Source>,
                                          q: Queues)
    requires Scheduled(order, queues) && pos <= |order| && Scheduled(now, q)
    requires now == OrderAt(order, queues, turn, pos) && q == QueuesAt(order, queues, turn, pos)
    ensures forall s :: s in SlotsFrom(order, queues, turn, pos) ==> IsSlot(order, queues, s)
    ensures Plan(now, q) == Sends(order, queues, SlotsFrom(order, queues, turn, pos))
    decreases Longest(order, queues) - turn, |order| - pos, 1
  {
    if pos == |order| {
      PlanReadsTurnEnd(order, queues, turn, now, q);
    } else if turn < |queues[order[pos]]| {
      PlanReadsServed(order, queues, turn, pos, now, q);
    } else {
      PlanReadsSkipped(order, queues, turn, pos, now, q);
    }
  }

  lemma {:induction false} PlanReadsTurnEnd(order: seq<Source>, queues: Queues, turn: nat, now: seq<Source>, q: Queues)
    requires Scheduled(order, queues) && Scheduled(now, q)
    requires now == OrderAt(order, queues, turn, |order|) && q == QueuesAt(order, queues, turn, |order|)
    ensures forall s :: s in SlotsFrom(order, queues, turn, |order|) ==> IsSlot(order, queues, s)
    ensures Plan(now, q) == Sends(order, queues, SlotsFrom(order, queues, turn, |order|))
    decreases Longest(order, queues) - turn, 0, 0
  {
    if turn < Longest(order, queues) {
      TurnWraps(order, queues, turn);
      PlanReadsTable(order, queues, turn + 1, 0, now, q);
    } else {
      assert order[|order|..] == [] && order[..|order|] == order;
      NoneAlive(order, queues, turn + 1);
    }
  }

  lemma {:induction false} PlanReadsSkipped(order: seq<Source>, queues: Queues, turn: nat, pos: nat, now: seq<Source>,
                                            q: Queues)
    requires Scheduled(order, queues) && pos < |order| && turn >= |queues[order[pos]]| && Scheduled(now, q)
    requires now == OrderAt(order, queues, turn, pos) && q == QueuesAt(order, queues, turn, pos)
    ensures forall s :: s in SlotsFrom(order, queues, turn, pos) ==> IsSlot(order, queues, s)
    ensures Plan(now, q) == Sends(order, queues, SlotsFrom(order, queues, turn, pos))
    decreases Longest(order, queues) - turn, |order| - pos, 0
  {
    SkipKeepsOrder(order, queues, turn, pos);
    SkipKeepsQueues(order, queues, turn, pos);
    PlanReadsTable(order, queues, turn, pos + 1, now, q);
    assert SlotsFrom(order, queues, turn, pos) == SlotsFrom(order, queues, turn, pos + 1);
  }

  lemma {:induction false} PlanReadsServed(order: seq<Source>, queues: Queues, turn: nat, pos: nat, now: seq<Source>,
                                           q: Queues)
    requires Scheduled(order, queues) && pos < |order| && turn < |queues[order[pos]]| && Scheduled(now, q)
    requires now == OrderAt(order, queues, turn, pos) && q == QueuesAt(order, queues, turn, pos)
    ensures forall s :: s in SlotsFrom(order, queues, turn, pos) ==> IsSlot(order, queues, s)
    ensures Plan(now, q) == Sends(order, queues, SlotsFrom(order, queues, turn, pos))
    decreases Longest(order, queues) - turn, |order| - pos, 0
  {
    ServeAdvancesSlot(order, queues, turn, pos, now, q);
    ServeKeepsSchedule(now, q);
    PlanReadsTable(order, queues, turn, pos + 1, OrderAfter(now, q), QueuesAfter(now, q));
    PlanReadsSlot(order, queues, turn, pos, now, q, SlotsFrom(order, queues, turn, pos + 1));
    assert SlotsFrom(order, queues, turn, pos) == [Slot(turn, pos)] + SlotsFrom(order, queues, turn, pos + 1);
  }

  /** The round-robin transmissions of frozen queues: the whole table. */
  ghost function RoundRobin(order: seq<Source>, queues: Queues): seq<Send>
    requires Scheduled(order, queues)
  {
    SlotsAreSlots(order, queues, 0, 0);
    Sends(order, queues, SlotsFrom(order, queues, 0, 0))
  }

  lemma PlanIsRoundRobin(order: seq<Source>, queues: Queues)
    requires Scheduled(order, queues)
    ensures Plan(order, queues) == RoundRobin(order, queues)
  {
    AllAlive(order, queues);
    assert order[0..] == order && order[..0] == [];
    assert OrderAt(order, queues, 0, 0) == order;
    assert QueuesAt(order, queues, 0, 0) == queues;
    PlanReadsTable(order, queues, 0, 0, order, queues);
  }

  lemma {:induction false} AllAlive(list: seq<Source>, queues: Queues)
    requires forall s :: s in list ==> s in queues && queues[s] != []
    ensures Alive(list, queues, 0) == list
  {
    if list != [] {
      AllAlive(list[1..], queues);
    }
  }
}
