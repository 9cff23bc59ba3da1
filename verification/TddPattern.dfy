/**
 The TDD part of CONFIG.request: the slots of one period, and the symbol table over 10 ms.
 */
module TddPattern {
  import opened BitString

  const MAX_SYMB_PER_SLOT := 14
  const MAX_TDD_PERIODICITY := 10
  const FAPI_MAX_NUM_TLVS_CONFIG := 1500
  /** The parameters that precede the table. */
  const LEADING_TLVS := 24

  datatype Periodicity = Ms0p5 | Ms0p625 | Ms1 | Ms1p25 | Ms2 | Ms2p5 | Ms5 | Ms10

  datatype TddCfg = TddCfg(
    period: Periodicity, nrOfDlSlots: nat, nrOfDlSymbols: nat, nrOfUlSlots: nat, nrOfUlSymbols: nat)

  datatype SymbolConfig = DlSymbol | UlSymbol | FlexiSymbol

  datatype Tlv = Other | TddPeriodTlv(period: Periodicity) | SlotConfig(symbol: SymbolConfig) | DmrsTypeAPos

  // ------------------------------------------------------------------ slots of a period

  function Millis(p: Periodicity): real {
    match p
    case Ms0p5 => 0.5
    case Ms0p625 => 0.625
    case Ms1 => 1.0
    case Ms1p25 => 1.25
    case Ms2 => 2.0
    case Ms2p5 => 2.5
    case Ms5 => 5.0
    case Ms10 => 10.0
  }

  /** Numerologies a period cannot be configured with. */
  predicate Refused(p: Periodicity, numerology: nat) {
    match p
    case Ms0p5 => numerology <= 0
    case Ms0p625 => numerology <= 2
    case Ms1p25 => numerology <= 1
    case Ms2p5 => numerology <= 0
    case _ => false
  }

  /** calcNumSlotsInCurrPeriodicity: the product is cut to an integer. */
  function CalcNumSlotsInCurrPeriodicity(p: Periodicity, numerology: nat): int {
    if Refused(p, numerology) then 0 else (Millis(p) * Pow2(numerology) as real).Floor
  }

  function NumSlotsInMaxPeriodicity(numerology: nat): nat {
    MAX_TDD_PERIODICITY * Pow2(numerology)
  }

  /** How often the period fits into 10 ms. */
  function Repetitions(p: Periodicity): nat {
    match p
    case Ms0p5 => 20
    case Ms0p625 => 16
    case Ms1 => 10
    case Ms1p25 => 8
    case Ms2 => 5
    case Ms2p5 => 4
    case Ms5 => 2
    case Ms10 => 1
  }

  lemma Doubled(n: nat)
    requires n >= 1
    ensures Pow2(n) == 2 * Pow2(n - 1) && Pow2(n - 1) >= 1
  {
  }

  /** The length of a period in eighths of a millisecond. */
  function Eighths(p: Periodicity): nat {
    match p
    case Ms0p5 => 4
    case Ms0p625 => 5
    case Ms1 => 8
    case Ms1p25 => 10
    case Ms2 => 16
    case Ms2p5 => 20
    case Ms5 => 40
    case Ms10 => 80
  }

  lemma InEighths(p: Periodicity, w: nat)
    ensures 8.0 * (Millis(p) * w as real) == (Eighths(p) * w) as real
  {
  }

  /** s slots last exactly one period; a slot lasts 1 / 2^numerology ms. */
  predicate FillsPeriod(p: Periodicity, numerology: nat, s: int) {
    s as real == Millis(p) * Pow2(numerology) as real
  }

  /** Whole slots: the number of slots of the period is an integer. */
  predicate WholeSlots(p: Periodicity, w: nat, s: int) {
    8 * s == Eighths(p) * w
  }

  lemma WholeSlotsIsExact(p: Periodicity, w: nat, s: int)
    ensures WholeSlots(p, w, s) <==> s as real == Millis(p) * w as real
  {
    InEighths(p, w);
  }

  lemma PowerShape(numerology: nat)
    ensures Pow2(numerology) >= 1
    ensures numerology >= 1 ==> Pow2(numerology) == 2 * Pow2(numerology - 1)
    ensures numerology >= 2 ==> Pow2(numerology) == 4 * Pow2(numerology - 2)
    ensures numerology >= 3 ==> Pow2(numerology) == 8 * Pow2(numerology - 3)
  {
    if numerology >= 2 { Doubled(numerology - 1); }
    if numerology >= 3 { Doubled(numerology - 2); }
  }

  /** The whole number of slots of an accepted period. */
  function SlotCount(p: Periodicity, numerology: nat): nat
    requires !Refused(p, numerology)
  {
    match p
    case Ms0p5 => Pow2(numerology - 1)
    case Ms0p625 => 5 * Pow2(numerology - 3)
    case Ms1 => Pow2(numerology)
    case Ms1p25 => 5 * Pow2(numerology - 2)
    case Ms2 => 2 * Pow2(numerology)
    case Ms2p5 => 5 * Pow2(numerology - 1)
    case Ms5 => 5 * Pow2(numerology)
    case Ms10 => 10 * Pow2(numerology)
  }

  lemma RefusedHasNone(p: Periodicity, numerology: nat, s: int)
    requires Refused(p, numerology)
    ensures !WholeSlots(p, Pow2(numerology), s)
  {
    assert Pow2(0) == 1 && Pow2(1) == 2 && Pow2(2) == 4;
  }

  lemma RefusedExactly(p: Periodicity, numerology: nat)
    ensures Refused(p, numerology) <==> forall s: int :: !WholeSlots(p, Pow2(numerology), s)
  {
    if Refused(p, numerology) {
      forall s: int ensures !WholeSlots(p, Pow2(numerology), s) { RefusedHasNone(p, numerology, s); }
    } else {
      PowerShape(numerology);
      assert WholeSlots(p, Pow2(numerology), SlotCount(p, numerology));
    }
  }

  /**
   A period is refused exactly when it is no whole number of slots; an accepted one is cut
   without loss, is not empty, and divides 10 ms exactly.
   */
  lemma PeriodDividesTenMs(p: Periodicity, numerology: nat)
    ensures var s := CalcNumSlotsInCurrPeriodicity(p, numerology);
      && (s == 0 <==> Refused(p, numerology))
      && (s != 0 ==> s > 0 && FillsPeriod(p, numerology, s))
      && (s != 0 ==> Repetitions(p) * s == NumSlotsInMaxPeriodicity(numerology))
    ensures Refused(p, numerology) <==> forall s :: !FillsPeriod(p, numerology, s)
  {
    RefusedExactly(p, numerology);
    PowerShape(numerology);
    var w := Pow2(numerology);
    forall s: int ensures WholeSlots(p, w, s) <==> FillsPeriod(p, numerology, s) {
      WholeSlotsIsExact(p, w, s);
    }
    if !Refused(p, numerology) {
      var s :| WholeSlots(p, w, s);
      assert CalcNumSlotsInCurrPeriodicity(p, numerology) == s;
    }
  }

  // ------------------------------------------------------------------ the symbol table

  /** The entry for a symbol of a slot, in a period of `slots` slots. */
  function SymbolAt(c: TddCfg, slots: nat, slot: nat, symbol: nat): SymbolConfig {
    if slot < c.nrOfDlSlots || (slot == c.nrOfDlSlots && symbol < c.nrOfDlSymbols) then DlSymbol
    else if slot < slots - c.nrOfUlSlots - 1
         || (slot == slots - c.nrOfUlSlots - 1 && symbol < MAX_SYMB_PER_SLOT - c.nrOfUlSymbols) then FlexiSymbol
    else UlSymbol
  }

  function SlotRow(c: TddCfg, slots: nat, slot: nat, n: nat): (r: seq<Tlv>)
    ensures |r| == n
  {
    seq(n, symbol requires 0 <= symbol < n => SlotConfig(SymbolAt(c, slots, slot, symbol)))
  }

  /** The first n slots of a period. */
  function SlotRows(c: TddCfg, slots: nat, n: nat): (r: seq<Tlv>)
    ensures |r| == MAX_SYMB_PER_SLOT * n
  {
    if n == 0 then [] else SlotRows(c, slots, n - 1) + SlotRow(c, slots, n - 1, MAX_SYMB_PER_SLOT)
  }

  function Repeat(x: seq<Tlv>, k: nat): (r: seq<Tlv>)
    ensures |r| == |x| * k
  {
    if k == 0 then [] else Repeat(x, k - 1) + x
  }

  method PutTlv(tlvs: array<Tlv>, index: nat, t: Tlv) returns (next: nat)
    requires index < tlvs.Length
    modifies tlvs
    ensures next == index + 1 && tlvs[..next] == old(tlvs[..index]) + [t]
    ensures forall k :: next <= k < tlvs.Length ==> tlvs[k] == old(tlvs[k])
  {
    tlvs[index] := t;
    next := index + 1;
  }

  method FillSlot(tlvs: array<Tlv>, from: nat, c: TddCfg, slots: nat, slotIdx: nat) returns (index: nat)
    requires from + MAX_SYMB_PER_SLOT <= tlvs.Length
    modifies tlvs
    ensures index == from + MAX_SYMB_PER_SLOT
    ensures tlvs[..index] == old(tlvs[..from]) + SlotRow(c, slots, slotIdx, MAX_SYMB_PER_SLOT)
    ensures forall k :: index <= k < tlvs.Length ==> tlvs[k] == old(tlvs[k])
  {
    index := from;
    for symbolIdx: int := 0 to MAX_SYMB_PER_SLOT
      invariant index == from + symbolIdx && tlvs[..index] == old(tlvs[..from]) + SlotRow(c, slots, slotIdx, symbolIdx)
      invariant forall k :: index <= k < tlvs.Length ==> tlvs[k] == old(tlvs[k])
    {
      if slotIdx < c.nrOfDlSlots || (slotIdx == c.nrOfDlSlots && symbolIdx < c.nrOfDlSymbols) {
        index := PutTlv(tlvs, index, SlotConfig(DlSymbol));
      } else if slotIdx < slots - c.nrOfUlSlots - 1
             || (slotIdx == slots - c.nrOfUlSlots - 1 && symbolIdx < MAX_SYMB_PER_SLOT - c.nrOfUlSymbols) {
        index := PutTlv(tlvs, index, SlotConfig(FlexiSymbol));
      } else {
        index := PutTlv(tlvs, index, SlotConfig(UlSymbol));
      }
      RowStep(c, slots, slotIdx, symbolIdx);
    }
  }

  lemma RowStep(c: TddCfg, slots: nat, slot: nat, n: nat)
    ensures SlotRow(c, slots, slot, n + 1) == SlotRow(c, slots, slot, n) + [SlotConfig(SymbolAt(c, slots, slot, n))]
  {
  }

  method FillPeriod(tlvs: array<Tlv>, from: nat, c: TddCfg, slots: nat) returns (index: nat)
    requires from + MAX_SYMB_PER_SLOT * slots <= tlvs.Length
    modifies tlvs
    ensures index == from + MAX_SYMB_PER_SLOT * slots
    ensures tlvs[..index] == old(tlvs[..from]) + SlotRows(c, slots, slots)
    ensures forall k :: index <= k < tlvs.Length ==> tlvs[k] == old(tlvs[k])
  {
    index := from;
    for slotIdx := 0 to slots
      invariant index == from + MAX_SYMB_PER_SLOT * slotIdx
      invariant tlvs[..index] == old(tlvs[..from]) + SlotRows(c, slots, slotIdx)
      invariant forall k :: index <= k < tlvs.Length ==> tlvs[k] == old(tlvs[k])
    {
      index := FillSlot(tlvs, index, c, slots, slotIdx);
    }
  }

  /** The whole table: cntSlotCfg periods. */
  method FillTable(tlvs: array<Tlv>, from: nat, c: TddCfg, slots: nat, cnt: nat) returns (index: nat)
    requires from + MAX_SYMB_PER_SLOT * slots * cnt <= tlvs.Length
    modifies tlvs
    ensures index == from + MAX_SYMB_PER_SLOT * slots * cnt
    ensures tlvs[..index] == old(tlvs[..from]) + Repeat(SlotRows(c, slots, slots), cnt)
    ensures forall k :: index <= k < tlvs.Length ==> tlvs[k] == old(tlvs[k])
  {
    index := from;
    ghost var n := MAX_SYMB_PER_SLOT * slots;
    ghost var done: nat := 0;
    var cntSlotCfg := cnt;
    while cntSlotCfg > 0
      invariant done + cntSlotCfg == cnt && index == from + n * done
      invariant tlvs[..index] == old(tlvs[..from]) + Repeat(SlotRows(c, slots, slots), done)
      invariant forall k :: index <= k < tlvs.Length ==> tlvs[k] == old(tlvs[k])
    {
      RoomForOneMore(n, done, cnt);
      index := FillPeriod(tlvs, index, c, slots);
      cntSlotCfg := cntSlotCfg - 1;
      done := done + 1;
    }
  }

  lemma RoomForOneMore(n: nat, done: nat, cnt: nat)
    requires done < cnt
    ensures n * (done + 1) == n * done + n <= n * cnt
  {
    assert n * cnt == n * (done + 1) + n * (cnt - done - 1);
  }

  /**
   The TDD part of lwr_mac_procConfigReqEvt, after the leading parameters. Nothing is filled
   when the period is refused.
   */
  method FillTddTlvs(tlvs: array<Tlv>, c: TddCfg, numerology: nat) returns (ok: bool, numberOfTlvs: nat, index: nat)
    requires NumberOfTlvs(numerology) <= tlvs.Length
    modifies tlvs
    ensures ok <==> !Refused(c.period, numerology)
    ensures ok ==> index == numberOfTlvs == NumberOfTlvs(numerology)
    ensures ok ==> tlvs[..index] == old(tlvs[..LEADING_TLVS]) + TddTlvs(c, SlotsOf(c.period, numerology))
    ensures forall k :: index <= k < tlvs.Length ==> tlvs[k] == old(tlvs[k])
    ensures !ok ==> tlvs[..] == old(tlvs[..])
  {
    var numSlotsInMax := NumSlotsInMaxPeriodicity(numerology);
    var numSlotsInCurr := CalcNumSlotsInCurrPeriodicity(c.period, numerology);
    PeriodDividesTenMs(c.period, numerology);
    if numSlotsInCurr == 0 {
      return false, 0, 0;
    }
    ok, numberOfTlvs := true, 25 + 1 + numSlotsInMax * MAX_SYMB_PER_SLOT;
    index := PutTlv(tlvs, LEADING_TLVS, TddPeriodTlv(c.period));
    var cntSlotCfg := numSlotsInMax / numSlotsInCurr;
    Quotient(numSlotsInCurr, Repetitions(c.period));
    TableFits(numSlotsInCurr, cntSlotCfg);
    index := FillTable(tlvs, index, c, numSlotsInCurr, cntSlotCfg);
    index := PutTlv(tlvs, index, DmrsTypeAPos);
  }

  /** The period, the table over 10 ms, and what follows it. */
  function TddTlvs(c: TddCfg, slots: nat): seq<Tlv> {
    [TddPeriodTlv(c.period)] + Repeat(SlotRows(c, slots, slots), Repetitions(c.period)) + [DmrsTypeAPos]
  }

  function SlotsOf(p: Periodicity, numerology: nat): (s: nat) {
    PeriodDividesTenMs(p, numerology);
    CalcNumSlotsInCurrPeriodicity(p, numerology)
  }

  lemma Quotient(s: nat, k: nat)
    requires s > 0
    ensures (k * s) / s == k
  {
    var q, r := (k * s) / s, (k * s) % s;
    var d := k - q;
    assert d * s == r;
    assert d >= 1 ==> d * s >= s;
    assert d <= -1 ==> d * s + s <= 0;
  }

  lemma TableFits(s: nat, k: nat)
    ensures MAX_SYMB_PER_SLOT * s * k == MAX_SYMB_PER_SLOT * (k * s)
  {
  }

  function NumberOfTlvs(numerology: nat): nat {
    25 + 1 + NumSlotsInMaxPeriodicity(numerology) * MAX_SYMB_PER_SLOT
  }

  /** The message has room for the table exactly up to numerology 3; the 8-bit slot count holds
      10 ms exactly up to numerology 4. */
  lemma TableFitsTheMessage(numerology: nat)
    ensures NumberOfTlvs(numerology) <= FAPI_MAX_NUM_TLVS_CONFIG <==> numerology <= 3
    ensures NumSlotsInMaxPeriodicity(numerology) < 0x100 <==> numerology <= 4
  {
    if numerology >= 1 { Doubled(numerology); }
    if numerology >= 2 { Doubled(numerology - 1); }
    if numerology >= 3 { Doubled(numerology - 2); }
    if numerology >= 4 { Doubled(numerology - 3); }
    if numerology >= 5 { Doubled(numerology - 4); }
  }

  // ------------------------------------------------------------------ the table as a pattern

  function Min(a: int, b: int): int {
    if a < b then a else b
  }

  /** Downlink symbols at the start of a period, and uplink symbols at its end. */
  function DlLength(c: TddCfg): nat {
    MAX_SYMB_PER_SLOT * c.nrOfDlSlots + Min(c.nrOfDlSymbols, MAX_SYMB_PER_SLOT)
  }

  function UlLength(c: TddCfg): nat {
    MAX_SYMB_PER_SLOT * c.nrOfUlSlots + Min(c.nrOfUlSymbols, MAX_SYMB_PER_SLOT)
  }

  /** The entry for position p of a period of n symbols. */
  function EntryAt(d: int, u: int, n: int, p: int): SymbolConfig {
    if p < d then DlSymbol else if p < n - u then FlexiSymbol else UlSymbol
  }

  function Run(s: SymbolConfig, n: nat): (r: seq<Tlv>)
    ensures |r| == n
  {
    seq(n, _ => SlotConfig(s))
  }

  lemma SymbolIsEntry(c: TddCfg, slots: nat, slot: nat, symbol: nat)
    requires symbol < MAX_SYMB_PER_SLOT && slot < slots
    ensures SymbolAt(c, slots, slot, symbol)
      == EntryAt(DlLength(c), UlLength(c), MAX_SYMB_PER_SLOT * slots, MAX_SYMB_PER_SLOT * slot + symbol)
  {
  }

  lemma {:induction false} RowsAreEntries(c: TddCfg, slots: nat, n: nat, p: nat)
    requires n <= slots && p < MAX_SYMB_PER_SLOT * n
    ensures SlotRows(c, slots, n)[p] == SlotConfig(EntryAt(DlLength(c), UlLength(c), MAX_SYMB_PER_SLOT * slots, p))
  {
    var before := MAX_SYMB_PER_SLOT * (n - 1);
    if p < before {
      RowsAreEntries(c, slots, n - 1, p);
    } else {
      SymbolIsEntry(c, slots, n - 1, p - before);
    }
  }

  /**
   One period is downlink, then flexible, then uplink. The lengths are the configured ones
   when they fit; a downlink part that is too long takes from the uplink part, then is cut.
   */
  lemma PeriodIsDlFlexUl(c: TddCfg, slots: nat)
    ensures var n := MAX_SYMB_PER_SLOT * slots;
      var d := Min(DlLength(c), n);
      var u := Min(UlLength(c), n - d);
      SlotRows(c, slots, slots) == Run(DlSymbol, d) + Run(FlexiSymbol, n - d - u) + Run(UlSymbol, u)
  {
    var n := MAX_SYMB_PER_SLOT * slots;
    var d := Min(DlLength(c), n);
    var u := Min(UlLength(c), n - d);
    var pattern := Run(DlSymbol, d) + Run(FlexiSymbol, n - d - u) + Run(UlSymbol, u);
    forall p | 0 <= p < n ensures SlotRows(c, slots, slots)[p] == pattern[p] {
      RowsAreEntries(c, slots, slots, p);
    }
  }

  function Count(x: seq<Tlv>, s: SymbolConfig): nat {
    multiset(x)[SlotConfig(s)]
  }

  lemma {:induction false} CountRun(s: SymbolConfig, n: nat, t: SymbolConfig)
    ensures Count(Run(s, n), t) == if s == t then n else 0
  {
    if n > 0 {
      CountRun(s, n - 1, t);
      assert Run(s, n) == Run(s, n - 1) + [SlotConfig(s)];
    }
  }

  lemma CountConcat(x: seq<Tlv>, y: seq<Tlv>, s: SymbolConfig)
    ensures Count(x + y, s) == Count(x, s) + Count(y, s)
  {
  }

  lemma OneMoreTime(n: nat, k: nat)
    requires k > 0
    ensures n * k == n * (k - 1) + n
  {
  }

  lemma {:induction false} CountRepeat(x: seq<Tlv>, k: nat, s: SymbolConfig)
    ensures Count(Repeat(x, k), s) == Count(x, s) * k
  {
    if k > 0 {
      CountRepeat(x, k - 1, s);
      CountConcat(Repeat(x, k - 1), x, s);
      OneMoreTime(Count(x, s), k);
    }
  }

  /** How often a symbol occurs in the three runs. */
  function Share(s: SymbolConfig, d: nat, f: nat, u: nat): nat {
    match s case DlSymbol => d case FlexiSymbol => f case UlSymbol => u
  }

  lemma CountRuns(d: nat, f: nat, u: nat, s: SymbolConfig)
    ensures Count(Run(DlSymbol, d) + Run(FlexiSymbol, f) + Run(UlSymbol, u), s) == Share(s, d, f, u)
  {
    CountConcat(Run(DlSymbol, d) + Run(FlexiSymbol, f), Run(UlSymbol, u), s);
    CountConcat(Run(DlSymbol, d), Run(FlexiSymbol, f), s);
    CountRun(DlSymbol, d, s);
    CountRun(FlexiSymbol, f, s);
    CountRun(UlSymbol, u, s);
  }

  lemma CountPeriod(c: TddCfg, slots: nat, s: SymbolConfig)
    ensures var n := MAX_SYMB_PER_SLOT * slots;
      var d := Min(DlLength(c), n);
      var u := Min(UlLength(c), n - d);
      Count(SlotRows(c, slots, slots), s) == Share(s, d, n - d - u, u)
  {
    var n := MAX_SYMB_PER_SLOT * slots;
    var d := Min(DlLength(c), n);
    var u := Min(UlLength(c), n - d);
    PeriodIsDlFlexUl(c, slots);
    CountRuns(d, n - d - u, u, s);
  }

  lemma CountTable(c: TddCfg, slots: nat, k: nat, d: nat, u: nat)
    requires d == Min(DlLength(c), MAX_SYMB_PER_SLOT * slots) && u == Min(UlLength(c), MAX_SYMB_PER_SLOT * slots - d)
    ensures Count(Repeat(SlotRows(c, slots, slots), k), DlSymbol) == d * k
    ensures Count(Repeat(SlotRows(c, slots, slots), k), UlSymbol) == u * k
  {
    CountRepeat(SlotRows(c, slots, slots), k, DlSymbol);
    CountRepeat(SlotRows(c, slots, slots), k, UlSymbol);
    CountPeriod(c, slots, DlSymbol);
    CountPeriod(c, slots, UlSymbol);
  }

  /** The 10 ms table holds the configured share of downlink and uplink symbols exactly when the
      two parts fit into one period. */
  lemma SharesAreConfigured(c: TddCfg, slots: nat, k: nat)
    requires k > 0
    ensures var table := Repeat(SlotRows(c, slots, slots), k);
      Count(table, DlSymbol) == DlLength(c) * k && Count(table, UlSymbol) == UlLength(c) * k
      <==> DlLength(c) + UlLength(c) <= MAX_SYMB_PER_SLOT * slots
  {
    var n := MAX_SYMB_PER_SLOT * slots;
    var d := Min(DlLength(c), n);
    var u := Min(UlLength(c), n - d);
    CountTable(c, slots, k, d, u);
    SameMultiple(d, DlLength(c), k);
    SameMultiple(u, UlLength(c), k);
  }

  lemma SameMultiple(a: nat, b: nat, k: nat)
    requires k > 0
    ensures a * k == b * k <==> a == b
  {
    if a < b { assert b * k == a * k + (b - a) * k; }
    if b < a { assert a * k == b * k + (a - b) * k; }
  }

  // ------------------------------------------------------------------ the emitted message

  lemma {:induction false} RepeatAt(x: seq<Tlv>, k: nat, p: nat)
    requires p < |x| * k
    ensures Repeat(x, k)[p] == x[p % |x|]
  {
    OneMoreTime(|x|, k);
    if p < |x| * (k - 1) {
      RepeatAt(x, k - 1, p);
    } else {
      LastTime(|x|, k - 1, p);
    }
  }

  lemma LastTime(n: nat, k: nat, p: nat)
    requires n * k <= p < n * k + n
    ensures p % n == p - n * k
  {
    var q, r := p / n, p % n;
    assert p == n * q + r;
    if q < k { assert n * (q + 1) <= n * k by { MoreTimes(n, q + 1, k); } }
    if q > k { assert n * (k + 1) <= n * q by { MoreTimes(n, k + 1, q); } }
  }

  lemma MoreTimes(n: nat, a: nat, b: nat)
    requires a <= b
    ensures n * a <= n * b
  {
    assert n * b == n * a + n * (b - a);
  }

  /**
   The emitted parameters, one by one: the period, then for each symbol of 10 ms the entry that
   its place in the period has (downlink from the start, uplink up to the end, flexible between),
   then DMRS.
   */
  lemma EmittedTlvs(c: TddCfg, numerology: nat, p: nat)
    requires !Refused(c.period, numerology) && p < MAX_SYMB_PER_SLOT * NumSlotsInMaxPeriodicity(numerology)
    ensures var slots := SlotsOf(c.period, numerology);
      var t := TddTlvs(c, slots);
      && |t| == MAX_SYMB_PER_SLOT * NumSlotsInMaxPeriodicity(numerology) + 2
      && t[0] == TddPeriodTlv(c.period) && t[|t| - 1] == DmrsTypeAPos
      && slots > 0
      && t[1 + p] == SlotConfig(EntryAt(DlLength(c), UlLength(c), MAX_SYMB_PER_SLOT * slots,
                                        p % (MAX_SYMB_PER_SLOT * slots)))
  {
    var slots, k := SlotsOf(c.period, numerology), Repetitions(c.period);
    var rows := SlotRows(c, slots, slots);
    PeriodDividesTenMs(c.period, numerology);
    TableFits(slots, k);
    RepeatAt(rows, k, p);
    RowsAreEntries(c, slots, slots, p % |rows|);
  }

  lemma CountInFrame(a: Tlv, table: seq<Tlv>, b: Tlv, s: SymbolConfig)
    requires !a.SlotConfig? && !b.SlotConfig?
    ensures Count([a] + table + [b], s) == Count(table, s)
  {
    CountConcat([a] + table, [b], s);
    CountConcat([a], table, s);
  }

  /** The emitted message holds the configured downlink and uplink symbols, as often as the period
      fits into 10 ms, exactly when both parts fit into one period. */
  lemma EmittedShares(c: TddCfg, numerology: nat)
    requires !Refused(c.period, numerology)
    ensures var slots := SlotsOf(c.period, numerology);
      var t := TddTlvs(c, slots);
      && Count(t, DlSymbol) == DlLength(c) * Repetitions(c.period)
      && Count(t, UlSymbol) == UlLength(c) * Repetitions(c.period)
      <==> DlLength(c) + UlLength(c) <= MAX_SYMB_PER_SLOT * slots
  {
    var slots, k := SlotsOf(c.period, numerology), Repetitions(c.period);
    var table := Repeat(SlotRows(c, slots, slots), k);
    CountInFrame(TddPeriodTlv(c.period), table, DmrsTypeAPos, DlSymbol);
    CountInFrame(TddPeriodTlv(c.period), table, DmrsTypeAPos, UlSymbol);
    SharesAreConfigured(c, slots, k);
  }

  /** Symbols 2 and 4 of the mixed slot of DDDM(10, 2)U are downlink. */
  lemma MixedSlotStartsDownlink(c: TddCfg)
    requires c == TddCfg(Ms2p5, 3, 10, 1, 2)
    ensures SlotsOf(c.period, 1) == 5 && |TddTlvs(c, 5)| > 47
    ensures TddTlvs(c, 5)[1 + 44] == TddTlvs(c, 5)[1 + 46] == SlotConfig(DlSymbol)
  {
    assert Pow2(1) == 2;
    EmittedTlvs(c, 1, 44);
    EmittedTlvs(c, 1, 46);
  }
}
