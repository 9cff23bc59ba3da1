# Verified model of the 5G MAC and lower MAC

A Dafny model of the downlink and uplink slot path of an O-RAN distributed unit: the MAC layer
between the scheduler, RLC and DU APP, and the lower MAC that talks FAPI to the PHY. The build
modelled has `INTEL_FAPI`, `INTEL_XFAPI`, `INTEL_WLS_MEM` and `NR_TDD` on and `OAI_TESTING` and
`INTEL_TIMER_MODE` off. Check it with `dafny verify dfyconfig.toml`.

| file | what it models |
|---|---|
| `SlotAssembly.dfy`, `SlotProperties.dfy` | one downlink slot: two counts, the DL_TTI walk that frees as it goes, the TX_DATA walk over what is left |
| `SlotPdus.dfy` | which PDUs and descriptors a slot gives, how often and where |
| `DlSlotRing.dfy` | everything that writes a slot record before it is assembled, over all runs |
| `SlotMemory.dfy` | the heap objects of the slots over all runs: handed over, freed, lost, held |
| `UlSlot.dfy` | the uplink slot and UL_TTI |
| `TtiChain.dfy` | the message chain of a slot and its way to the PHY |
| `WlsRing.dfy` | delayed free of shared-memory blocks |
| `CellRuns.dfy` | PHY and cell state machine over all runs |
| `BitString.dfy`, `BitPackers.dfy` | bit strings, and the two recursive bit packers as one append |
| `Riv.dfy`, `RarPdu.dfy`, `Sib1Dci.dfy` | resource indication values, the random access response, the DCI of SIB1 |
| `FreqDomainMap.dfy` | the CORESET resource map |
| `MacMux.dfy`, `MacDemux.dfy`, `MacRoundTrip.dfy` | MAC multiplexing and demultiplexing as inverses |
| `MacAsCoded.dfy` | the round trip as built, on transport blocks of any size |
| `MacEndings.dfy` | how demultiplexing ends on a PDU that is not well formed |
| `MacDownlink.dfy` | the downlink PDU as the UE reads it, and contention resolution from MSG3 to MSG4 |
| `DlHarq.dfy`, `DlHarqRuns.dfy` | the downlink HARQ store |
| `HarqSlots.dfy` | the slots of a UE joined with its HARQ store: from RLC's data to the retransmitted PDU |
| `LogicalChannels.dfy`, `Statistics.dfy`, `TddPattern.dfy` | logical-channel lists, statistics groups, the TDD symbol table |
| `Common.dfy` | shared definitions |

Code that changes state is a class or a method over an array, proved equal to a function of the
old state; the lemmas are about those functions. Octets are integers below 256, shifts and masks
are spelled out on natural numbers, and integer widths appear where they matter: the 8-bit PDU
index of UL_TTI that starts at 255, the 8-bit index of the demultiplexer, the octets of the
packers. Allocation succeeds. The choices of the environment (which WLS_Put calls succeed, whether
the scheduler takes a slot indication, which MSG4 is complete, the result codes of the PHY) are
parameters, so the theorems hold for all of them.

## Where the code is not what its documentation says

The model follows the code; each point has a theorem that says exactly when the promise holds.

- The demultiplexer tests the reserved bit for F and joins a 16-bit length with `&`
  (`src/5gnrmac/mac_demux.c:83`, `src/5gnrmac/mac_demux.c:129`; its comment at line 82 has the right
  bit). A payload of more than 255 octets is then not read back. `MacRoundTrip.MuxThenDemux` proves the
  round trip for the intended decode, `MuxThenDemuxCoded` gives the exact condition for the coded one.
- Its index is 8 bits wide (`src/5gnrmac/mac_demux.c:53`), so as built the round trip holds for all SDU
  lists exactly up to transport blocks of 256 octets: `MacRoundTrip.MuxThenDemuxAsCoded`. One list is
  read back on every block if its SDUs take at most 255 octets: `ShortBodyAsCoded`. For longer lists
  `MacAsCoded.RoundTripAsCodedExactlyWhen` says what the PDU must hold where the index has come round.
- An LCID the demultiplexer knows but does not consume (C-RNTI, power headroom, truncated BSRs, ...) does
  not advance its index, so it never leaves its loop: `MacEndings.UnknownLcidSticks`.
- A RAR whose allocation does not fit the bandwidth part carries the value 0, which a UE reads as one PRB
  at the start: `RarPdu.RarRoundTrip`.
- The HARQ store keys an arriving PDU by (sfn, slot, size), so of two processes scheduled for one slot
  with one size the first is overwritten by the second's octets and the second finds none:
  `DlHarqRuns.SharedKeyLosesTheSecond`. `RetransmissionFetchesLastStored` and
  `OwnOctetsFetchedExactlyWhen` say, over all runs, exactly which octets a retransmission gets.
- The store is given the TB size, which is 32 octets more than the PDU that RLC's data became
  (`src/5gnrmac/mac_msg_hdl.c:313-327`), so a retransmitted PDU is that much longer than the first one:
  `HarqSlots.RetransmissionCarriesOriginal`.
- A slot with PDCCHs only loses its RAR and message blocks: TX_DATA frees them, and it is not built:
  `SlotProperties.AllFreedExactlyWhenSent`, and `DlSlotRing.PdcchOnlySlotLosesItsRar` for a reachable one.
- A second allocation, page, RLC PDU or MSG4 for a slot that is not assembled yet is stored over the first
  one's pointer, which is then lost: `SlotMemory.LosesExactlyWhen`, and `SecondRarLosesTheFirst` for a run.
- UL_TTI announces PUSCH-with-UCI and SRS PDUs it never encodes: `UlSlot.UlCountCoversEncoding`,
  `SrsAnnouncedNotEncoded`, `PuschUciAnnouncedNotEncoded`.
- The first slot after a start puts the cell up again and overwrites a stop that waits:
  `CellRuns.StopIsHonouredExactlyWhen`, and `EarlyStopIsLost` for a stop that is never sent.
- A cleared entry of the pending statistics list carries subscription 0, so a response for
  subscription 0 may complete it: `Statistics.ForwardedIsAnsweredOnce` has the exact condition,
  `ZeroLosesItsRejection` a run of two requests.
- Answered statistics requests keep their place in the pending list, so only the first five
  forwarded ones are ever served: `Statistics.ForwardedExactlyWhen`, `SixthIsRejected`.
- Deletions and modifications of logical channels are skipped while the list is full, although the
  guard is only needed for additions: `LogicalChannels.ReconfiguredIds`, `AddThenDelete`,
  `FullListDeletesNothing`.
- The TDD table fits CONFIG.request up to numerology 3 only: `TddPattern.TableFitsTheMessage`.

## Model

| member | source | states |
|---|---|---|
| SlotAssembly.MacDlSlot.CalcDlTtiReqPduCount | src/5gnrmac/lwr_mac_fsm.c:4607-4656 | the announced DL_TTI count of a slot: a RAR counts one even without any configuration |
| SlotAssembly.MacDlSlot.CalcTxDataReqPduCount | src/5gnrmac/lwr_mac_fsm.c:4672-4698 | the TX_DATA count, SIB1 only with a broadcast |
| SlotAssembly.MacDlSlot.EncodeShared | src/5gnrmac/lwr_mac_fsm.c:5129-5187 | SSB, SIB1 and paging PDUs are all encoded: the guards on the announced count never skip one |
| SlotAssembly.MacDlSlot.EncodeDlTti | src/5gnrmac/lwr_mac_fsm.c:5127-5258 | the PDUs encoded, the PDCCH configurations freed on the way, and exactly what is left in the slot |
| SlotAssembly.MacDlSlot.SendTxDataReq | src/5gnrmac/lwr_mac_fsm.c:5594-5672 | descriptors numbered 0, 1, 2, ... for what the slot still holds, and what is freed |
| SlotProperties.DlCountCoversEncoding | src/5gnrmac/lwr_mac_fsm.c:4607-4656 | DL_TTI never announces fewer PDUs than it encodes; equal exactly when every RAR has a configuration and every PDSCH message its PDU |
| SlotProperties.TxCountOfOwners | src/5gnrmac/lwr_mac_fsm.c:5594-5667 | the TX_DATA count equals the descriptors, except for a SIB1 flagged without a broadcast |
| SlotProperties.NothingToEncodeNothingToSend | src/5gnrmac/lwr_mac_fsm.c:5127-5294 | skipping TX_DATA for an empty DL_TTI loses nothing |
| SlotProperties.PdschIndicesAreConsecutive | src/5gnrmac/lwr_mac_fsm.c:5127-5258 | the PDSCH PDUs of DL_TTI carry 0, 1, 2, ... in order |
| SlotProperties.TxUnaffectedByDlPass | src/5gnrmac/lwr_mac_fsm.c:5192-5250 | freeing PDCCH configurations in the first walk does not change what the second walk sees |
| SlotProperties.SameIndexForSameAllocation | src/5gnrmac/lwr_mac_fsm.c:5594-5667 | DL_TTI and TX_DATA give one index to one allocation exactly when every PDSCH message has its PDU and SIB1 comes with a broadcast (or nothing is sent) |
| SlotProperties.AllFreedExactlyWhenSent | src/5gnrmac/lwr_mac_fsm.c:5594-5672 | every heap object of a slot is freed exactly once, exactly when TX_DATA is sent or there is nothing for it to free |
| SlotPdus.WantedEncodedOnce | src/5gnrmac/lwr_mac_fsm.c:5127-5258 | DL_TTI holds one SSB PDU for each supported index, one PDCCH PDU for each allocation with a PDCCH configuration and one PDSCH PDU for each with a PDSCH to send, each under its own allocation and index, and nothing else |
| SlotPdus.PdcchStandsBeforePdsch | src/5gnrmac/lwr_mac_fsm.c:5192-5250 | where an allocation has both, the PDCCH PDU stands directly before the PDSCH PDU |
| SlotPdus.OwnersOnce | src/5gnrmac/lwr_mac_fsm.c:5594-5667 | in either walk every allocation with a PDSCH has one place in the numbering, and no other has one |
| SlotPdus.DescriptorsInPlace | src/5gnrmac/lwr_mac_fsm.c:5594-5667 | the k-th descriptor of TX_DATA is of the k-th allocation and carries index k |
| DlSlotRing.MacCellSlots.MacProcDlAlloc | src/5gnrmac/mac_slot_ind.c:61-185 | which slot records a scheduling result is written into, and which of its messages come with a PDU |
| DlSlotRing.MacCellSlots.MacProcDlPageAlloc | src/5gnrmac/mac_slot_ind.c:204-228 | a paging allocation marks its slot and no other |
| DlSlotRing.MacCellSlots.MacProcRlcDlData | src/5gnrmac/mac_msg_hdl.c:307-330 | the scheduled message of that UE and slot gets a PDU, if it has a PDSCH, and nothing else changes |
| DlSlotRing.MacCellSlots.BuildAndSendMuxPdu | src/5gnrmac/mac_slot_ind.c:331-356 | every complete MSG4 of the slot gets its PDU |
| DlSlotRing.ReachableSib1NeedsBroadcast | src/5gnrmac/mac_slot_ind.c:66-72 | in every reachable ring of slots a SIB1 mode comes with a broadcast |
| DlSlotRing.WaitingByHistory | src/5gnrmac/mac_slot_ind.c:85-176 | a message lacks its PDU exactly when it was scheduled as new and not served, replaced or sent since |
| DlSlotRing.ReachableIndicesAgree | src/5gnrmac/lwr_mac_fsm.c:5127-5258 | over all runs, the two walks agree on every index exactly when no message of the slot still waits for its PDU |
| DlSlotRing.PdcchOnlySlotLosesItsRar | src/5gnrmac/lwr_mac_fsm.c:5594-5645 | a slot with one PDCCH-only RAR, which PdcchOnlyIsReachable reaches: the PDCCH is sent and the RAR block is never freed |
| SlotMemory.FreedOnce | src/5gnrmac/lwr_mac_fsm.c:5127-5672 | for any slot and object, its assembly frees the object once or not at all: PDCCH configurations with DL_TTI, the uplink grant always, the rest with TX_DATA |
| SlotMemory.DlPassTakesThePdcchs | src/5gnrmac/lwr_mac_fsm.c:5192-5250 | the DL_TTI walk takes the PDCCH configurations of the UEs out of the slot record and nothing else |
| SlotMemory.StepOwns | src/5gnrmac/mac_slot_ind.c:61-228 | after any event a slot owns an object exactly when the event handed it over, or it owned it and the event neither stored over it nor assembled the slot |
| SlotMemory.LedgerBalances | src/5gnrmac/mac_slot_ind.c:61-356 | conservation over all runs: the objects handed to a slot are the freed ones, the lost ones and the one held |
| SlotMemory.OwnsByHistory | src/5gnrmac/mac_slot_ind.c:61-228 | over all runs, a slot owns an object exactly when some event handed it over and none has touched it since |
| SlotMemory.LosesExactlyWhen | src/5gnrmac/mac_slot_ind.c:76-90 | an object is lost exactly when it is held since an earlier event and is stored over, or its slot is assembled without the pass that frees it |
| SlotMemory.SecondRarLosesTheFirst | src/5gnrmac/mac_slot_ind.c:76-83 | two RARs for one UE and slot before its assembly: the first block is lost |
| SlotMemory.BroadcastByHistory | src/5gnrmac/mac_slot_ind.c:66-72 | over all runs, a slot carries a broadcast, with its SSB mode, number of SSBs and SIB1 mode, exactly when that was the last one given to it since its assembly |
| UlSlot.MacUlSlot.GetnPdus | src/5gnrmac/lwr_mac_fsm.c:5808-5849 | the announced UL_TTI count |
| UlSlot.MacUlSlot.EncodeUlTti | src/5gnrmac/lwr_mac_fsm.c:6200-6240 | in every PDU array of at least seven entries, the encoded PDUs lie at 0, 1, 2, ... although the 8-bit index starts at 255; the three per-type counters |
| UlSlot.UlCountCoversEncoding | src/5gnrmac/lwr_mac_fsm.c:5808-5849 | UL_TTI never announces too few PDUs; exactly enough if and only if no PUSCH-with-UCI and no SRS is scheduled |
| UlSlot.EncodedExactlyOnce | src/5gnrmac/lwr_mac_fsm.c:6205-6237 | each scheduled PRACH, PUSCH and PUCCH is encoded once, and nothing else is |
| UlSlot.CountersCountTheirKind | src/5gnrmac/lwr_mac_fsm.c:6205-6237 | the counters reported for PUSCH and PUCCH are the numbers of PUSCH and PUCCH PDUs encoded |
| UlSlot.SrsAnnouncedNotEncoded | src/5gnrmac/lwr_mac_fsm.c:5843-5846 | a slot with an SRS only announces one PDU and encodes none |
| UlSlot.PuschUciAnnouncedNotEncoded | src/5gnrmac/lwr_mac_fsm.c:5828-5834 | so does a slot with a PUSCH with UCI only |
| TtiChain.MacCell.FillUlTtiReq | src/5gnrmac/lwr_mac_fsm.c:6177-6245 | UL_TTI with its announced count, and a cleared uplink slot |
| TtiChain.MacCell.FillUlDciReq | src/5gnrmac/lwr_mac_fsm.c:6651-6690 | UL_DCI with one PDU for a grant, which is freed |
| TtiChain.MacCell.FillDlTtiReq | src/5gnrmac/lwr_mac_fsm.c:5070-5310 | the whole chain in order, num_msg equal to its length, the cell state after a stop, cleared slots, and what was freed |
| TtiChain.ChainAgrees | src/5gnrmac/lwr_mac_fsm.c:5099-5306 | DL_TTI, UL_TTI, UL_DCI with the count of the grant, TX_DATA if anything is sent, STOP if asked for, vendor message last; no count too small; indices agree exactly under the slot condition |
| TtiChain.ChainCarriesTheSlot | src/5gnrmac/lwr_mac_fsm.c:5099-5306 | DL_TTI and UL_TTI of a chain hold each PDU the two slot records ask for once, and nothing else |
| TtiChain.ClearedSlotsSendNothing | src/5gnrmac/lwr_mac_fsm.c:5296-5307 | the records a chain leaves behind give the next chain no PDU, no grant and no TX_DATA |
| TtiChain.SendSlot | src/5gnrmac/lwr_mac_phy.c:558-605 | the blocks of a header and num_msg messages go to the sender in order; what is sent and what is registered for the delayed free |
| TtiChain.SendSlotThenWait | src/5gnrmac/lwr_mac_phy.c:558-605 | after a slot is sent and ten slot indications complete, the blocks of its chain have been given back once, in order, after everything older; with a refused put, those up to and with the refused one |
| WlsRing.LwrMacCb.AddWlsBlockToFree | src/5gnrmac/lwr_mac_phy.c:373-391 | the block joins the youngest generation |
| WlsRing.LwrMacCb.FreeWlsBlockList | src/5gnrmac/lwr_mac_phy.c:408-426 | one list is drained in order, the other nine stay |
| WlsRing.LwrMacCb.SlotIndDone | src/5gnrmac/mac_slot_ind.c:594-601 | all blocks age by one slot and exactly those nine slots old are freed: the ring refines a list of ages |
| WlsRing.LwrMacCb.LwrMacSendToL1 | src/5gnrmac/lwr_mac_phy.c:558-605 | flags, return value and registered blocks for every chain and every pattern of refused puts |
| WlsRing.RegisteredUpToTheRefused | src/5gnrmac/lwr_mac_phy.c:562-600 | said by the puts alone: the youngest generation gains the whole chain when none is refused, the first k + 1 blocks when put k is the first refused, and no other generation changes |
| WlsRing.SentBeforeTheRefused | src/5gnrmac/lwr_mac_phy.c:570-600 | all of the chain reaches the PHY, or the blocks before the first refused put |
| WlsRing.FlagsFrameTheChain | src/5gnrmac/lwr_mac_phy.c:570-600 | the blocks go out in order, FIRST exactly for the first and LAST exactly for the last |
| WlsRing.ChainIsFreedByTheTenth | src/5gnrmac/mac_slot_ind.c:594-601 | ten completed slot indications give back everything held and then the registered chain, in order; nine give back none of the chain |
| WlsRing.ChainInARun | src/5gnrmac/lwr_mac_phy.c:373-391 | handing over a chain is one send event for each registered block, so the two theorems on runs hold of chains |
| WlsRing.ExactLifetime | src/5gnrmac/mac_slot_ind.c:594-601 | on every interleaving, a block is freed by the tenth completed slot indication after it was sent, the one in which it is sent counting as the first, and by no other |
| WlsRing.EveryBlockFreedOnce | src/5gnrmac/lwr_mac_phy.c:373-426 | sent blocks are the freed ones followed by the held ones: none lost, none freed twice |
| CellRuns.LowerMacFsm.SendToLowerMac | src/5gnrmac/lwr_mac_fsm.c:6846-6908 | the event table: which handler runs in which state and what it sends, the configuration event of a positive PARAM.response included |
| CellRuns.LowerMacFsm.ProcSlotIndication | src/5gnrmac/mac_slot_ind.c:529-590 | one slot indication: PHY state, cell state, slot counter, and everything sent |
| CellRuns.LowerMacFsm.MacProcCellStart | src/5gnrmac/mac_msg_hdl.c:534-546 | the slot counter restarts and START.request goes through the table |
| CellRuns.LowerMacFsm.MacProcCellStop | src/5gnrmac/mac_msg_hdl.c:563-580 | the cell is marked to be stopped in any state |
| CellRuns.LowerMacFsm.ProcStopInd | src/5gnrmac/lwr_mac_handle_phy.c:149-169 | the PHY is CONFIGURED again |
| CellRuns.PhyByHistory | src/5gnrmac/lwr_mac_handle_phy.c:657-670 | over all runs: IDLE until first configured, RUNNING exactly when a slot indication has followed the last configuration |
| CellRuns.RunningOnlyFromConfigured | src/5gnrmac/lwr_mac_handle_phy.c:659-664 | over all runs, RUNNING is entered exactly by the first slot indication after a configuration, in CONFIGURED |
| CellRuns.RequestsFitTheState | src/5gnrmac/lwr_mac_fsm.c:6864-6872 | START.request exactly for a start in CONFIGURED; TTI requests exactly for taken slot indications once configured, in RUNNING; STOP only with them |
| CellRuns.StopsAreAskedFor | src/5gnrmac/lwr_mac_fsm.c:5296-5303 | STOP.requests, plus a stop still waiting, never outnumber cell-stop calls |
| CellRuns.StopIsHonouredExactlyWhen | src/5gnrmac/mac_slot_ind.c:540-546 | the first TTI requests after a stop call carry STOP exactly when no slot indication since, taken by the scheduler or not, was the first of a start |
| CellRuns.EarlyStopIsLost | src/5gnrmac/mac_slot_ind.c:540-546 | a cell stopped between its start and its first slot: no STOP is ever sent, however many slots follow |
| CellRuns.CellUpForFirstSlot | src/5gnrmac/mac_slot_ind.c:569-581 | Cell-Up for the first slot since a start, Slot-Ind for every other |
| CellRuns.CellUpComesFirstAndOnce | src/5gnrmac/mac_slot_ind.c:569-581 | per start at most one Cell-Up, and none after a Slot-Ind |
| CellRuns.OutputsByHistory | src/5gnrmac/lwr_mac_fsm.c:6846-6908 | over all runs and for every request to the PHY and notice upwards: an event sends it exactly when the events before say so, and once |
| CellRuns.SlotOutputsInOrder | src/5gnrmac/mac_slot_ind.c:540-581 | the TTI requests go first, STOP with them, the notice to DU APP last |
| CellRuns.StopWaitsByHistory | src/5gnrmac/mac_slot_ind.c:540-546 | over all runs the cell is to be stopped exactly while a stop call has been neither carried out nor overwritten by the first slot of a start |
| CellRuns.StopRunsByHistory | src/5gnrmac/lwr_mac_fsm.c:5296-5303 | over all runs a stop is in progress exactly from its STOP.request until the next stop call or first slot of a start |
| BitPackers.PackBytes | src/5gnrmac/mac_mux.c:45-80 | for any cursor and any value below 2^size, the buffer gets the big-endian bits appended, other bits unchanged, the cursor normalised |
| BitPackers.FillDlDciPayload | src/5gnrmac/lwr_mac_util.c:140-158 | the same append with a cursor that counts up and may rest at 8 |
| Riv.EncodeIsBijection | src/5gnrmac/lwr_mac_fsm.c:3589-3598 | for every bandwidth the two-branch formula is a bijection from the valid allocations onto [0, N(N+1)/2) |
| Riv.EncodeInRangeAndInvertible | src/5gnrmac/mac_mux.c:155-162 | every valid allocation is recovered from its value |
| Riv.DecodeValidAndInvertible | src/5gnrmac/lwr_mac_fsm.c:3589-3596 | every value in range names a valid allocation |
| Riv.NeighbouringValues | src/5gnrmac/mac_mux.c:155-162 | which bijection it is: one PRB at s is s, all PRBs are 2N - 1, one PRB more adds N to a short allocation and takes N from a long one, the next start adds or takes 1 |
| Riv.WidthIsExact | src/5gnrmac/lwr_mac_fsm.c:3598 | the field width holds every value, and no smaller width does |
| Riv.WidthAtMost14 | src/5gnrmac/mac_mux.c:167-172 | below 180 PRBs the value fits the 14 bits of the RAR grant |
| RarPdu.ResourceFits | src/5gnrmac/mac_mux.c:167-172 | the leading zeros and the value are packed without a negative size or a lost bit |
| RarPdu.FillRarPdu | src/5gnrmac/mac_mux.c:97-207 | the ten octets are the fields of the standard in order and the cursor ends at octet 10 |
| RarPdu.RarRoundTrip | src/5gnrmac/mac_mux.c:135-207 | decoding returns RAPID, timing advance, the grant and the temporary C-RNTI for every response; the PRBs exactly when they fit the bandwidth part, or are the one PRB that the value 0 names |
| RarPdu.RarFixedBits | src/5gnrmac/mac_mux.c:135-207 | E = 0, T = 1, the reserved bits clear, and LCID 63 with a clear octet behind the response |
| Sib1Dci.FapiDlDci.FillSib1DlDciPdu | src/5gnrmac/lwr_mac_fsm.c:3585-3669 | payload size and packed fields, octets beyond the payload unchanged |
| Sib1Dci.Sib1RoundTrip | src/5gnrmac/lwr_mac_fsm.c:3585-3669 | cutting the payload by the field widths gives back PRBs, time row, VRB mapping, MCS and RV |
| Sib1Dci.Sib1OtherFields | src/5gnrmac/lwr_mac_fsm.c:3585-3669 | for every schedule the six other fields are read back, indicator 0 and reserved bits clear; an allocation outside the coreset has no field |
| FreqDomainMap.ConvertFreqDomRsrcMapToIapiFormat | src/5gnrmac/lwr_mac_util.c:211-237 | read little-endian, the destination is the big-endian source divided by 8 |
| FreqDomainMap.MapsNeverCollide | src/5gnrmac/lwr_mac_util.c:211-237 | two destinations are equal exactly when the 45 used source bits are |
| MacMux.MacMuxPdu | src/5gnrmac/mac_mux.c:271-366 | control elements, SDUs with 8- or 16-bit lengths, one padding subheader, clear octets to the end |
| MacDownlink.UeReadsWhatWasMuxed | src/5gnrmac/mac_mux.c:290-366 | for all control elements and SDUs that fit, a UE reads every contention resolution identity and every SDU on LCID 0 to 32, unchanged and in order, and then padding only; the others are dropped |
| MacDownlink.FillMsg4Pdu | src/5gnrmac/mac_slot_ind.c:262-290 | the UE reads the identity kept of MSG3, then the CCCH message |
| MacDownlink.Msg3IsHandedOn | src/5gnrmac/mac_demux.c:92-116 | as built, the six octets of MSG3 are handed on, with any padding |
| MacDownlink.ContentionIsResolved | src/5gnrmac/mac_mux.c:244-254 | what a UE reads first in MSG4 is what it sent in MSG3 |
| MacDemux.UnpackRxData | src/5gnrmac/mac_demux.c:47-262 | the loop delivers the walk over the sub-PDUs and says how it ends, or where it would read beyond the PDU or not advance |
| MacDemux.UnpackBsr | src/5gnrmac/mac_demux.c:205-244 | a long BSR delivers the announced groups with their levels and takes one octet for each |
| MacDemux.CodedLengthIsZero | src/5gnrmac/mac_demux.c:129 | the coded 16-bit length is always zero |
| MacRoundTrip.DemuxInvertsEncode | src/5gnrmac/mac_demux.c:79-262 | with the intended length decode and an unbounded index, every PDU of CCCH, SDU, short and long BSR sub-PDUs is read back in order, stopping at padding or the exact end |
| MacEndings.UnknownLcidSticks | src/5gnrmac/mac_demux.c:151-180 | an LCID that is not consumed: what stands before it is handed on, and the loop does not get past it, whatever follows |
| MacEndings.TruncatedOverruns | src/5gnrmac/mac_demux.c:79-244 | a PDU cut anywhere within its last sub-PDU: the sub-PDUs before it are handed on, and the next read lies beyond the PDU |
| MacRoundTrip.MuxThenDemux | src/5gnrmac/mac_mux.c:316-366 | with the intended length decode, demultiplexing undoes multiplexing for every SDU list that fits |
| MacRoundTrip.MuxThenDemuxCoded | src/5gnrmac/mac_demux.c:83-143 | as coded it does so exactly when no SDU is longer than 255 octets |
| MacRoundTrip.MuxThenDemuxAsCoded | src/5gnrmac/mac_demux.c:53 | with the 8-bit index, every SDU list is read back exactly on transport blocks of at most 256 octets |
| MacRoundTrip.ShortBodyAsCoded | src/5gnrmac/mac_demux.c:53 | with the 8-bit index, a list that takes at most 255 octets is read back on every transport block, one that takes 256 exactly when it fills the block |
| MacAsCoded.RoundTripAsCodedExactlyWhen | src/5gnrmac/mac_demux.c:53-143 | with the 8-bit index and the coded length test, any list of non-empty SDUs is read back from a block of any size exactly when each SDU, and the padding, is found at its index modulo 256 |
| DlHarq.MacCellCb.AddDlHqProcInUe | src/5gnrmac/mac_harq_dl.c:43-80 | the process is emptied and gets the new transport blocks; other processes and UEs unchanged |
| DlHarq.MacCellCb.UpdateNewTbInDlHqProcCb | src/5gnrmac/mac_harq_dl.c:101-138 | the octets go to the first block with that time and size; success exactly when there is one |
| DlHarq.MacCellCb.FetchTbFromDlHarqProc | src/5gnrmac/mac_harq_dl.c:156-182 | the first block of that size of the process, moved to the new time |
| DlHarq.MacCellCb.MacSchReleaseDlHarqProc | src/5gnrmac/mac_harq_dl.c:198-242 | a release message, applied entry by entry, RA blocks aside |
| DlHarqRuns.EveryRunKeepsInv | src/5gnrmac/mac_harq_dl.c:53-80 | over all runs from creation, entry i has process id i or is empty, and holds at most two blocks |
| DlHarqRuns.StoreReachesUnlessLowerHolds | src/5gnrmac/mac_harq_dl.c:110-135 | a store reaches the scheduled process exactly when no lower process holds the key |
| DlHarqRuns.RetransmissionFetchesLastStored | src/5gnrmac/mac_harq_dl.c:43-182 | over every run that neither releases nor reschedules p, a retransmission fetches given octets exactly when the last store that landed on p's block carried them; a store lands exactly when it has the time and size the block is then due with and no lower process holds that key |
| DlHarqRuns.OwnOctetsFetchedExactlyWhen | src/5gnrmac/mac_harq_dl.c:43-182 | p's own octets are fetched exactly when no lower process held the key at their store and the last later store that landed on p, if any, carried the same; otherwise only if another store brought them |
| DlHarqRuns.DistinctKeysGiveTheOctets | src/5gnrmac/mac_harq_dl.c:43-182 | when no other process holds p's (sfn, slot, size) key at p's store, and no later store is under a key p then holds, a retransmission always gets p's octets, whatever is scheduled, fetched and released elsewhere |
| DlHarqRuns.SharedKeyLosesTheSecond | src/5gnrmac/mac_harq_dl.c:113-135 | a concrete run in which two processes share a key: the first gets the second's octets, the second none |
| DlHarqRuns.ReleaseByHistory | src/5gnrmac/mac_harq_dl.c:198-242 | for every message, UE and process: emptied and its id given back exactly when listed at a point where the UE's RA block does not name it, the block changing on the way; unchanged otherwise |
| DlHarqRuns.ReleaseFreesExactlyTheListed | src/5gnrmac/mac_harq_dl.c:211-238 | exactly the listed (UE, process) pairs not named by the RA block are emptied |
| DlHarqRuns.NamedProcessIsKept | src/5gnrmac/mac_ue_mgr.c:2502-2516 | over a whole message, the process the RA block names is freed exactly when it is not 0, the block is the UE's own and the message lists the process twice |
| DlHarqRuns.RaAfterRelease | src/5gnrmac/mac_harq_dl.c:211-222 | a message clears the RA block of a UE exactly when the block is the UE's own and the message lists the process it names |
| DlHarqRuns.FreedFetchesNothing | src/5gnrmac/mac_harq_dl.c:224-236 | a process freed by a message has nothing to fetch and holds no key, over every run until it is scheduled again |
| DlHarqRuns.ReleasedFetchesNothing | src/5gnrmac/mac_harq_dl.c:224-236 | the same for one release, which leaves every other process as it was |
| HarqSlots.UeTx.NewTransmission | src/5gnrmac/mac_slot_ind.c:134-147 | a new transmission waits in its slot, and is added to HARQ if it has a PDSCH |
| HarqSlots.UeTx.Retransmission | src/5gnrmac/mac_slot_ind.c:148-175 | one fetch for each codeword; the last one's octets are the PDU of the slot |
| HarqSlots.UeTx.MacProcRlcDlData | src/5gnrmac/mac_msg_hdl.c:307-330 | the PDU goes to the slot, the TB-size octets from it on to HARQ, if there is a message with a PDSCH |
| HarqSlots.PlacedPduIsLastLanded | src/5gnrmac/mac_slot_ind.c:156-174 | over all sequences of scheduling, RLC data, sending and release, the PDU placed for a retransmission is what the last store that landed on the block carried |
| HarqSlots.RetransmissionCarriesOriginal | src/5gnrmac/mac_slot_ind.c:134-175 | under the same two conditions on keys, the retransmitted PDU starts with the octets RLC's data put into the slot for the original |
| HarqSlots.ReleasedPlacesNothing | src/5gnrmac/mac_slot_ind.c:156-174 | over all sequences of events from the release of a process to its next scheduling, a retransmission of it finds no block |
| HarqSlots.MessageByHistory | src/5gnrmac/mac_slot_ind.c:85-176 | a slot holds the message of the last event that scheduled one there, none once it is sent |
| LogicalChannels.CloseGap | src/5gnrmac/mac_ue_mgr.c:2026-2080 | the entries after a deleted one move up, the freed last place is zeroed |
| LogicalChannels.MacUeCb.UpdateMacUlLcCtxt | src/5gnrmac/mac_ue_mgr.c:2111-2153 | first match deleted or its group modified, 33 meaning no deletion, tail zeroed |
| LogicalChannels.MacUeCb.UpdateMacDlLcCtxt | src/5gnrmac/mac_ue_mgr.c:2171-2210 | the same for the downlink, which a modification leaves alone |
| LogicalChannels.MacUeCb.FillMacLcCfgList | src/5gnrmac/mac_ue_mgr.c:2228-2279 | the channels that fit are appended to both lists |
| LogicalChannels.MacUeCb.UpdateMacLcCfgList | src/5gnrmac/mac_ue_mgr.c:2296-2362 | additions, then deletions, then modifications, with the guards, both lists in step |
| LogicalChannels.EveryRunKeepsSync | src/5gnrmac/mac_ue_mgr.c:2228-2362 | over all runs, both lists hold the same ids, all active, at most 33 |
| LogicalChannels.ReconfiguredIds | src/5gnrmac/mac_ue_mgr.c:2300-2360 | old ids, added ids that fit, less the first of each deleted, order kept; nothing deleted when the additions fill the list |
| LogicalChannels.ReconfiguredChans | src/5gnrmac/mac_ue_mgr.c:2300-2360 | the channels with their groups in closed form: added ones with their configured group, the first of each deleted one gone, modified ones in their last group |
| LogicalChannels.GroupsAfterModify | src/5gnrmac/mac_ue_mgr.c:2353-2360 | each channel's group is that of the last modification naming it, if it is the first with its id and the list is not full |
| LogicalChannels.AddThenDelete | src/5gnrmac/mac_ue_mgr.c:2300-2360 | adding and deleting a channel in one reconfiguration is the identity exactly when the addition does not take the last place |
| LogicalChannels.FullListDeletesNothing | src/5gnrmac/mac_ue_mgr.c:2345-2352 | a UE created with as many channels as fit: no reconfiguration that only deletes one of them has any effect |
| Statistics.MacStats.MacProcStatsReq | src/5gnrmac/mac_cfg_hdl.c:1154-1285 | valid groups translated and forwarded in order, the others rejected in order, the answer kept |
| Statistics.MacStats.MacProcSchStatsRsp | src/5gnrmac/mac_cfg_hdl.c:1301-1347 | the first pending entry of the subscription is completed, sent and cleared |
| Statistics.RejectAllStats | src/5gnrmac/mac_cfg_hdl.c:1108-1127 | every group rejected with the cause |
| Statistics.SplitIsPartition | src/5gnrmac/mac_cfg_hdl.c:1203-1260 | each requested group is forwarded or rejected, once |
| Statistics.ForwardedKeepMeaning | src/5gnrmac/mac_cfg_hdl.c:1203-1260 | the scheduler is asked for exactly the groups it supports, in order, with their id, periodicity and the measurements requested |
| Statistics.RejectedAreUnsupported | src/5gnrmac/mac_cfg_hdl.c:1203-1260 | the groups MAC rejects are exactly the others, in order, as invalid parameters |
| Statistics.ForwardedIsAnsweredOnce | src/5gnrmac/mac_cfg_hdl.c:1301-1347 | whatever happens in between, the first response makes an answer that is a permutation of the request, MAC's rejections first, if the scheduler answers each forwarded group once: exactly unless the subscription is 0, an earlier forwarded request has been answered and MAC itself rejected a group |
| Statistics.ZeroLosesItsRejection | src/5gnrmac/mac_cfg_hdl.c:1311-1347 | a run of two requests after which the answer to subscription 0 lacks the group MAC rejected |
| Statistics.NotAnsweredTwice | src/5gnrmac/mac_cfg_hdl.c:1311-1324 | a response to a subscription without an entry produces nothing until it is requested again; for subscription 0 exactly until any other request is answered |
| Statistics.AnsweredIsForgotten | src/5gnrmac/mac_cfg_hdl.c:1072-1075 | an answered subscription other than 0 has no entry left |
| Statistics.NotForwardedIsRejected | src/5gnrmac/mac_cfg_hdl.c:1177-1195 | a request that is not forwarded is answered at once, all groups rejected |
| Statistics.PlacesAreNeverGivenBack | src/5gnrmac/mac_cfg_hdl.c:1269 | the pending count equals the requests ever forwarded |
| Statistics.ForwardedExactlyWhen | src/5gnrmac/mac_cfg_hdl.c:1177-1185 | a request is forwarded exactly when it has a valid group and fewer than five were ever forwarded before |
| Statistics.SixthIsRejected | src/5gnrmac/mac_cfg_hdl.c:1177-1185 | after five requests that were all answered, every further one is rejected whole |
| TddPattern.PeriodDividesTenMs | src/5gnrmac/lwr_mac_util.c:253-327 | a period is refused exactly when it is no whole number of slots; an accepted one is cut without loss and divides 10 ms |
| TddPattern.FillTddTlvs | src/5gnrmac/lwr_mac_fsm.c:3041-3194 | the period, the table repeated over 10 ms, DMRS, and as many TLVs as announced; nothing when refused |
| TddPattern.PeriodIsDlFlexUl | src/5gnrmac/lwr_mac_fsm.c:3156-3184 | each period is a run of downlink, of flexible, of uplink symbols, with the lengths for every configuration |
| TddPattern.SharesAreConfigured | src/5gnrmac/lwr_mac_fsm.c:3150-3187 | 10 ms hold the configured downlink and uplink symbols exactly when both parts fit one period |
| TddPattern.EmittedTlvs | src/5gnrmac/lwr_mac_fsm.c:3041-3194 | every emitted parameter by position: the period, for each symbol of 10 ms the entry of its place in the period, DMRS |
| TddPattern.EmittedShares | src/5gnrmac/lwr_mac_fsm.c:3150-3187 | the emitted message holds the configured shares exactly when both parts fit one period |
| TddPattern.TableFitsTheMessage | src/5gnrmac/lwr_mac_fsm.c:3041 | room for the table exactly up to numerology 3, 8-bit slot count exactly up to 4 |

## Left out

- CellRuns.LowerMacFsm.SendToLowerMac: what the configuration handler does without a cell id after a positive PARAM.response (src/5gnrmac/lwr_mac_fsm.c:1920); it takes the id from a null pointer.
- CellRuns.Slot: the slot counter is a natural number; the 64-bit counter is taken as not wrapping.
- RarPdu.FillRarPdu: the branch for 180 PRBs and more, which is partly a TODO, and an empty bandwidth part, whose logarithm is not defined.
- Riv.CeilLog2: the floating-point `ceil(log2(x))` is taken as exact, and products of 16-bit sizes as not overflowing.
- DlHarq.MacCellCb.UpdateNewTbInDlHqProcCb: requires a buffer of tbSize octets, while its caller (src/5gnrmac/mac_msg_hdl.c:313-327) passes one that is 32 octets shorter than the size it names.
- DlHarq.ProcCb: the tbInfo array with its count is a sequence, buffers are values; freeing buffers is not tracked.
- DlHarqRuns.ReleaseFreesExactlyTheListed: not process 0 of a UE whose RA block the same message clears; ReleaseByHistory covers that case too.
- MacDemux.UnpackRxData: a read beyond the PDU is the ending `Overrun`, a sub-PDU that does not advance the index is the ending `Stuck`; what the C code does next in these cases is not part of this model. Buffer sizes of BSRs stay table indices.
- MacRoundTrip.DemuxInvertsEncode: the coded length decode and 8-bit index are in the theorems on multiplexed PDUs only.
- MacAsCoded.RoundTripAsCodedExactlyWhen: lists with an empty SDU on blocks of more than 256 octets; an SDU read as empty because of a misread length would look the same. The condition is on the octets of the multiplexed PDU.
- MacRoundTrip.ShortBodyAsCoded: longer bodies, which MacAsCoded.RoundTripAsCodedExactlyWhen has.
- MacMux.MacMuxPdu: bodies that do not fit the transport block are excluded by its precondition.
- DlSlotRing.MacCellSlots.MacProcRlcDlData: the octets of the PDU and the HARQ store, which HarqSlots.UeTx.MacProcRlcDlData has.
- HarqSlots.UeTx.Retransmission: a fetch that finds no block is a slot without a PDU; the C code copies from a null pointer. MSG4 has a HARQ process of its own and is not part of this module.
- HarqSlots.RetransmissionCarriesOriginal: TB sizes are at least the 32 octets of the TX payload header, and a PDSCH has at least one codeword.
- DlSlotRing.MacCellSlots.MacProcDlAlloc: HARQ is in HarqSlots; which message is MSG4 is an input; the octets of the RAR are in RarPdu and overwritten pointers in SlotMemory; the RA block and the schedule report to RLC are not modelled.
- SlotMemory.StepOwns: the copy of its PDU that a retransmission makes for each codeword is one object, so the first of two copies is not in the ledger.
- Statistics.MacStats.MacProcStatsReq: deletion and modification of statistics, which share the pending list.
- TddPattern.FillTddTlvs: the values of the 24 parameters before the table.
- MacDownlink.FillMsg4Pdu: that a CCCH message is there, and the copy of the PDU into the slot, are not part of this method.
- SlotAssembly.MacDlSlot.EncodeDlTti: the contents of the PDUs, the vendor message and the MSG4 status flag.
- WlsRing.LwrMacCb.LwrMacSendToL1: the call flow log, and what the shared memory does with a block.
- The LSB-first branch of `fillDlDciPayload`, `reverseBits`, and the DCI fillers that use them: not the XFAPI build.
- The OAI packers, the capability decoders, the field-by-field configuration copies, Pst packing, threads, timers, sockets and allocator: plumbing, or easy members only.
- Failing allocations, and several cells: one cell is modelled.
