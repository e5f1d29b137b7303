# CH32L103 peripheral library: models and proofs

A Dafny model of the parts of the CH32L103 standard peripheral library (and of the C library hook `_sbrk` beside it)
that keep state over several register accesses, and proofs of what they promise. `dafny verify dfyconfig.toml` checks
the whole project. Each driver function is a method on a class that holds the registers it reads and writes; each
register access is a step of that method. Machine words on which the driver works bit by bit are bit vectors; lengths,
addresses and counters are integers held within 32 bits.

* **Flash engine** (`FlashDevice`, `FlashGranules`, `FlashErase`, `FlashWrite`, `FlashOperations`, `FlashOptions`,
  `FlashRuns`). `FlashDevice.Flash` is the controller: control register, locks, key registers, BSY, page buffer, array
  and option words, with a log of every command it was given. The array's bounds, its contents, what an erased word
  reads as, what programming over an old word leaves, whether programming the option words takes OBWRE, and how long
  each operation takes are parameters. The range erase issues exactly the maximal granules of the range: they are
  disjoint, cover the range exactly, and no cover by granules is smaller. Erase and write together splice words into the
  array. Every run of the driver, whatever the controller is doing meanwhile, starts each operation with one mode bit
  and leaves none set.
* **CAN** (`CanFrame`, `CanMailboxes`, `CanTransmit`, `CanStatus`, `CanReceive`). Three transmit mailboxes shared with a
  controller that may complete any of them between any two register accesses. An accepted frame stays intact in its
  mailbox until it is completed, in every run; what the frame registers hold is decoded to what was sent, whatever they
  held before. Frame fields follow section 3.2.1 of the Bosch CAN Specification 2.0 Part B, data length codes section
  3.2.1 of the Bosch CAN FD Specification 1.0.
* **RTC** (`RtcCounter`). The 32-bit counter read in two halves while it counts: exactly which interleavings return a
  value the counter did not hold.
* **ADC** (`AdcCalibration`, `AdcSequencer`). The sorted, trimmed and rounded calibration value; the packed sequencer
  registers against plain maps.
* **GPIO** (`GpioInit`, `GpioRemap`, with `Registers` for packed fields). Pin configuration against sixteen separate
  pins, and the remap codes against one number for each peripheral.
* **Heap** (`Sbrk`). The break, and the blocks handed out below it.

## What is assumed of the hardware

* STRT, BUF_LOAD and BUF_RST clear themselves. STRT acts only while LOCK is clear; the 256-byte and 32 KB erases and
  page programming act only while FLOCK is clear too, and the option erase only while OBWRE is set. Whether programming
  the option words takes OBWRE too is a parameter, `Part.optionsGuarded`; nothing but a reset clears OBWRE. Writes to
  CTLR are ignored while LOCK is set. Each key register opens on KEY1 followed by KEY2.
* An operation shows BSY for a number of reads that depends on the operation, and then never again. What it does to the
  array, the option words or the page buffer is there from its start. STRT, BUF_LOAD and BUF_RST while BSY is set, and
  STRT with another number of mode bits than one, are logged and have no effect.
* BUF_LOAD moves the word last stored to a flash address to the slot of the page buffer that the low byte of its address
  selects. STRT with FTPG programs the page at ADDR from the buffer. Programming an erased word stores the new one.
* No operation of the driver raises WRPRTERR; it is an input, like RDPRT.
* Only the controller marks a transmit mailbox empty, and it does so when it completes the request; nothing but a new
  request clears the three status flags of a mailbox. Registers of a mailbox marked empty belong to the driver.
* The RTC counter only counts up, one tick at a time, modulo 2^32.

## Where the code and its documentation differ

* `FLASH_ROM_ERASE` and `FLASH_ROM_WRITE` compare a 32-bit sum with the end of the array. A request whose end wraps
  around is accepted, and only such a request is accepted wrongly (`FlashErase.RequestAccepted`).
* `FLASH_UserOptionByteConfig` does not wait for the controller or look at WRPRTERR, and does not look at the result of
  the option erase. With that flag set, or an operation under way that outlasts the erase time-out, nothing is erased,
  the words are programmed over the old ones, and the answer is still FLASH_COMPLETE (`FlashOptions.LosesComplement`,
  `FlashOptions.LosesComplementWhenBusy`); on a part that guards the option words against programming too, this takes an
  earlier option erase, which leaves OBWRE set, and without one nothing is programmed and the answer is the same. The
  two protection calls do wait and look (`FlashOptions.CallKeepsExactly`, `FlashOptions.KeptExactlyWhen`).
* `FLASH_ROM_ERASE` does not wait before its first STRT. Called while the controller is busy, it leaves the first
  granule it starts as it was and still answers FLASH_COMPLETE (`FlashErase.BusyEraseMissesFirst`).
* `FLASH_ErasePage` and `FLASH_EraseAllPages` answer FLASH_COMPLETE when the controller is locked and nothing is erased.
* `CAN_TransmitStatus` stores CAN_TxStatus_Failed for a mailbox number above 2, but that code is zero, which its second
  switch reads as "no flag set": the answer is CAN_TxStatus_Pending (`CanStatus.StatusByFlags`).
* `ADC_InjectedChannelConfig` with a rank beyond the configured length stores its channel nowhere, and with the rank
  just after the last it overwrites the length (`AdcSequencer.InjectedLengthKeptExactly`,
  `AdcSequencer.InjectedLengthAfterPut`).
* `RTC_GetCounter` is right as long as the counter advances by no more than 2^32 - 2^16 ticks during the call, and this
  bound cannot be raised (`RtcCounter.Linearizable`, `RtcCounter.TightBound`).

## Model

| member | source | states |
|---|---|---|
| FlashErase.RequestAccepted | Peripheral/src/ch32l103_flash.c:804-817 | the checks accept exactly the non-empty 256-byte aligned ranges of the array, apart from requests that wrap around 32 bits, all of which they accept wrongly |
| FlashErase.RefusedBecause | Peripheral/src/ch32l103_flash.c:804-817 | the error of a refused request: the start is outside the array; or the end is; or start, end or length is wrong for 256-byte granules |
| FlashErase.WrappingRequestAccepted | Peripheral/src/ch32l103_flash.c:809-812 | a request that the checks accept although it leaves a 64 KB array |
| FlashErase.EraseOne | Peripheral/src/ch32l103_flash.c:750-784 | one turn of the loop of ROM_ERASE starts one granule with one mode bit and leaves none set; the granule is erased unless the controller was busy |
| FlashErase.EraseRun | Peripheral/src/ch32l103_flash.c:746-785 | ROM_ERASE with a count of at least one starts just that many granules in a row, and erases all of them from an idle controller; `--Cnt` never wraps |
| FlashErase.Split | Peripheral/src/ch32l103_flash.c:827-844 | the first split falls on a 32 KB or 2 KB boundary inside the range, and the two parts add up to it |
| FlashErase.EraseFront | Peripheral/src/ch32l103_flash.c:847-860 | at each size the front is cut at its first boundary and all granules up to the split go; no subtraction underflows |
| FlashErase.EraseBack | Peripheral/src/ch32l103_flash.c:862-878 | the same for the back, up to its last boundary |
| FlashErase.EraseRest | Peripheral/src/ch32l103_flash.c:914-923 | what is left at both ends goes in 256-byte granules |
| FlashErase.ErasePlanned | Peripheral/src/ch32l103_flash.c:827-923 | the granules erased are the maximal granules of the range, each once |
| FlashErase.EraseRange | Peripheral/src/ch32l103_flash.c:798-929 | an accepted request starts the maximal granules of its range, each once; from an idle controller it erases the range and no other byte, from a busy one all granules but the first; it ends idle with LOCK and FLOCK set. A refused request touches no register |
| FlashErase.BusyEraseMissesFirst | Peripheral/src/ch32l103_flash.c:798-929 | a request made while the controller is busy erases exactly its range less the first granule started |
| FlashErase.TilingErasesRange | Peripheral/src/ch32l103_flash.c:846-923 | erasing the maximal granules one after another, in any order, is erasing the range |
| FlashGranules.DriverTiling | Peripheral/src/ch32l103_flash.c:829-923 | the granules between the driver's cuts are exactly the granules of the range that no other granule of the range encloses |
| FlashGranules.TilingIsExact | Peripheral/src/ch32l103_flash.c:829-923 | those granules are pairwise disjoint and their union is the range |
| FlashGranules.FewestGranules | Peripheral/src/ch32l103_flash.c:829-923 | no cover of the range by aligned granules in it, overlapping or not, has fewer, and they are the only cover with as many |
| FlashWrite.LoadBuffer | Peripheral/src/ch32l103_flash.c:982-992 | the inner loop loads 64 words into their slots of the page buffer, by exactly 64 loads |
| FlashWrite.WritePage | Peripheral/src/ch32l103_flash.c:978-999 | one turn of the outer loop resets the buffer, loads it and programs the page, once, even if the controller is busy at first |
| FlashWrite.WritePages | Peripheral/src/ch32l103_flash.c:964-1000 | the loops program the pages of the range in order from the words in order |
| FlashWrite.WriteRange | Peripheral/src/ch32l103_flash.c:943-1006 | an accepted request programs word k of the range with word k of the buffer and nothing else, busy or not at first, and ends locked; a refused one touches no register |
| FlashWrite.EachPageOnce | Peripheral/src/ch32l103_flash.c:977-1000 | in the command log each page has one reset, then its own 64 words in order, then one start |
| FlashWrite.EraseThenWriteIsSplice | Peripheral/src/ch32l103_flash.c:798-1006 | erasing and then writing a range leaves the old array with the words spliced in |
| FlashWrite.EraseAndWrite | Peripheral/src/ch32l103_flash.c:798-1006 | the two calls on one request are one splice, whatever the array held, or both are refused and change nothing; made from a busy controller, the words of the granule that the erase misses are programmed over the old ones |
| FlashWrite.BusyEraseThenWrite | Peripheral/src/ch32l103_flash.c:798-1006 | what writing makes of a range whose erase missed its first granule, word by word |
| FlashOperations.WaitForLastOperation | Peripheral/src/ch32l103_flash.c:555-570 | the status of the first poll that is not busy if it comes before the time-out, else Timeout; never Busy; at most timeout + 1 polls |
| FlashOperations.WaitForLastBank1Operation | Peripheral/src/ch32l103_flash.c:582-597 | the Bank1 variant, which compares with a flag, has the same answer and the same polls |
| FlashOperations.ErasePage | Peripheral/src/ch32l103_flash.c:122-141 | erases the 2 KB page around the address, once the controller is free; the locked case; no mode bit left |
| FlashOperations.EraseAllPages | Peripheral/src/ch32l103_flash.c:151-168 | erases the whole array and not the option words |
| FlashOperations.EraseOptionBytes | Peripheral/src/ch32l103_flash.c:178-200 | erases the option words and not the array, unlocks by itself and ends locked, or changes nothing if the wait fails |
| FlashOperations.BufReset | Peripheral/src/ch32l103_flash.c:636-645 | blanks the page buffer, unless a lock is closed or the controller is busy; ends idle, with the control register as it was |
| FlashOperations.BufLoad | Peripheral/src/ch32l103_flash.c:657-667 | sets one slot of the page buffer, under the same conditions |
| FlashOperations.ProgramPageFast | Peripheral/src/ch32l103_flash.c:722-732 | programs the page around the address, of the array or of the option words, from the buffer, exactly if both locks are open and the controller is idle |
| FlashOperations.ErasePageFast | Peripheral/src/ch32l103_flash.c:678-688 | erases the 256 bytes around the address, under the same conditions, and no option word |
| FlashOperations.EraseBlock32KFast | Peripheral/src/ch32l103_flash.c:699-711 | erases the 32 KB around the address, likewise |
| FlashOptions.ProgramOptions | Peripheral/src/ch32l103_flash.c:211-226 | leaves just the four words given if the controller is free within the erase time-out and WRPRTERR is clear, else those programmed over the old ones, if the part lets them be; the array is untouched; control register, ADDR, page buffer and commands in both cases |
| FlashOptions.EnableWriteProtection | Peripheral/src/ch32l103_flash.c:238-271 | the answer and the whole controller afterwards, in every case: read-protected, wait of 0x5000 polls failed, done; when done, the protection bit of each of the 16 pages is clear exactly if the argument names it, the fourth word is 0x00FF00FF and the others are kept |
| FlashOptions.PagesRebuilt | Peripheral/src/ch32l103_flash.c:250-264 | those bits in the words it puts together: pages 0 to 7 in the lowest byte of the third word, 8 to 15 in its third byte, complements above |
| FlashOptions.EnableReadOutProtection | Peripheral/src/ch32l103_flash.c:283-307 | the same with a wait of 0xB0000 polls; when done, the lower half of the first word is 0x00FF, not the 0x5AA5 of an unprotected part, and its upper half and the other words are kept |
| FlashOptions.ReadOutRebuilt | Peripheral/src/ch32l103_flash.c:301 | those words |
| FlashOptions.UserOptionByteConfig | Peripheral/src/ch32l103_flash.c:330-353 | the same without a wait; when erased, the lower half of the first word is 0x5AA5 and the user byte has exactly the bits that an argument has and bits 3, 4, 6 and 7; when not erased, these words go over the old ones and the answer is Complete all the same |
| FlashOptions.UserRebuilt | Peripheral/src/ch32l103_flash.c:342-348 | those words |
| FlashOptions.OptionCommandsAre | Peripheral/src/ch32l103_flash.c:217-225 | the commands of the programming: reset, the four words loaded at 0x1FFFF800 and on, one start |
| FlashOptions.CallLeaves | Peripheral/src/ch32l103_flash.c:211-353 | what each call leaves of locks, OBWRE and busy time, in every case |
| FlashOptions.RebuiltComplemented | Peripheral/src/ch32l103_flash.c:262-264 | every half-word a call rebuilds is a byte with its complement above |
| FlashOptions.CallKeepsOptions | Peripheral/src/ch32l103_flash.c:238-353 | if the part is read-protected, or WRPRTERR is clear and the controller free in time, or the option words cannot be programmed either, all eight half-words stay complemented, the words a call does not rebuild survive, and so does the user byte under read protection |
| FlashOptions.CallKeepsExactly | Peripheral/src/ch32l103_flash.c:238-353 | on a part whose programming clears bits, for every call and state: the half-words stay complemented exactly if that condition holds, or the call is one of the two that check, or it writes the first word that is there |
| FlashOptions.RunKeepsOptions | Peripheral/src/ch32l103_flash.c:238-353 | under that condition every run of calls keeps the half-words complemented and the word of the data bytes as it was |
| FlashOptions.KeptExactlyWhen | Peripheral/src/ch32l103_flash.c:211-353 | on such a part all runs from all complemented words keep them so exactly if the part is read-protected; or WRPRTERR is clear and the controller is busy for less than the erase time-out; or programming takes OBWRE and OBWRE is clear |
| FlashOptions.LosesComplement | Peripheral/src/ch32l103_flash.c:330-353 | in every state outside that condition, a call and option words for which the answer is Complete and a complement is lost |
| FlashOptions.LosesComplementWhenBusy | Peripheral/src/ch32l103_flash.c:330-353 | after any call that erased the option bytes, on any such part, such a state has WRPRTERR clear and an operation that outlasts the time-out |
| FlashRuns.Step | Peripheral/src/ch32l103_flash.c:86-1006 | every operation of the driver, with the controller idle or busy and its locks open or closed, has its effect on control register, ADDR, array, option words, page buffer, busy time and command log, each of which is stated in full, and keeps: one mode bit at each start, none between operations |
| FlashRuns.Run | Peripheral/src/ch32l103_flash.c:86-1006 | so does every run of operations, each of which is carried out: a chain of their effects leads from the first state to the last |
| FlashRuns.RunOptions | Peripheral/src/ch32l103_flash.c:211-353 | every run of option calls leaves the words that the calls make one after another, keeps the half-words complemented and the data bytes as they were if the option bytes can be erased or cannot be programmed, and never touches the array |
| CanFrame.HeaderDecoded | Peripheral/src/ch32l103_can.c:352-367 | whatever the registers held before, reception decodes the header that transmission packs for a message, any message |
| CanFrame.HeaderRoundTripExactly | Peripheral/src/ch32l103_can.c:352-367 | and that is the message's own exactly if the message is within the ranges of the header file |
| CanFrame.WellFormedRequestsNothing | Peripheral/src/ch32l103_can.c:352-362 | no field of a message within those ranges falls on the request bit |
| CanFrame.DataRoundTrip | Peripheral/src/ch32l103_can.c:369-376 | the two data registers give back all eight bytes in order |
| CanFrame.FdLengthIsListed | Peripheral/src/ch32l103_can.c:1498-1511 | the length computed from the code is the one the header file lists |
| CanFrame.FdLengthIncreases | Peripheral/src/ch32l103_can.c:1498-1511 | the length increases with the code and is at most 64 |
| CanMailboxes.Mailboxes.Select | Peripheral/src/ch32l103_can.c:333-348 | the mailbox chosen is still empty and was at some moment since, an earlier one was occupied at some moment since, and one empty from the start is not passed over |
| CanMailboxes.Mailboxes.Write | Peripheral/src/ch32l103_can.c:352-376 | a register write to an empty mailbox keeps the invariant, whatever completes meanwhile |
| CanMailboxes.Mailboxes.Request | Peripheral/src/ch32l103_can.c:377 | the last write turns the mailbox into an occupied one, accepts the frame, and makes it the last frame of that mailbox and no other |
| CanMailboxes.Mailboxes.Hardware | Peripheral/src/ch32l103_can.c:327-381 | completions in any number and order keep the invariant and leave empty mailboxes alone |
| CanMailboxes.Conservation | Peripheral/src/ch32l103_can.c:327-381 | the accepted frames are the completed ones and those in mailboxes, none is both, and their numbers add up |
| CanTransmit.Transmit | Peripheral/src/ch32l103_can.c:327-381 | accepts exactly the header packed and the data into the mailbox returned, which was empty at some moment of the call and whose last frame it now is, or finds none only if each was occupied at some moment of the call and then accepts nothing |
| CanTransmit.TransmitFd | Peripheral/src/ch32l103_can.c:1416-1462 | the same for FD, with the address of the data |
| CanTransmit.PendingFrame | Peripheral/src/ch32l103_can.c:351-377 | in every reachable state an occupied mailbox holds, bit by bit, the frame it was taken for, and the request: identifier, kind, remote flag, length and all eight bytes, or the address of the data |
| CanTransmit.Session | Peripheral/src/ch32l103_can.c:327-381 | every run of both, with completions anywhere, keeps the invariant and accepts exactly the frames of the calls that returned a mailbox, in order; each call has its own span of moments, in which the mailbox it returned was empty and each it passed over was occupied |
| CanStatus.StatusByFlags | Peripheral/src/ch32l103_can.c:396-455 | the answer for every register value and mailbox number, by the mailbox's own three flags, at bits 8 i, 8 i + 1 and 26 + i |
| CanStatus.StatusOfLastFrame | Peripheral/src/ch32l103_can.c:396-455 | in every reachable state it tells whether the last frame requested in the mailbox is pending, sent or failed |
| CanStatus.TransmitAndWatch | Peripheral/src/ch32l103_can.c:327-455 | after CAN_Transmit and any completions, CAN_TransmitStatus of the mailbox returned tells what became of the frame that call took |
| CanReceive.Receive | Peripheral/src/ch32l103_can.c:504-533 | the message is what the mailbox's registers decode to, the identifier field of the other kind is left alone, and FIFO 0 is released |
| CanReceive.CopyFrom | Peripheral/src/ch32l103_can.c:1533-1536 | the loop copies exactly the given number of bytes from consecutive addresses and leaves the rest of the buffer |
| CanReceive.ReceiveFd | Peripheral/src/ch32l103_can.c:1477-1546 | nothing changes without a pending frame; otherwise header, listed length and flags are decoded, and the data come from the registers up to code 8 and from memory above |
| CanReceive.DeliverAndReceive | Peripheral/src/ch32l103_can.c:1477-1546 | a frame the controller delivers comes out of CANFD_Receive as it went in: identifier, kind, remote flag, listed length, filter, three flags, and every data byte, from the registers or from memory 0x20000000 above CANFD_DMA_R on |
| CanReceive.DeliverAndReceiveClassical | Peripheral/src/ch32l103_can.c:504-533 | and out of CAN_Receive, for lengths up to eight |
| CanReceive.HeaderArrives | Peripheral/src/ch32l103_can.c:504-513 | the header that reception decodes is the one delivered |
| CanReceive.BytesArrive | Peripheral/src/ch32l103_can.c:1515-1538 | the data bytes read are the ones delivered, and the rest of the buffer is kept |
| RtcCounter.HeldExactly | Peripheral/src/ch32l103_rtc.c:73-89 | for every interleaving the value is one the counter held between the first and the last access, unless it went round once and the low half was read in between |
| RtcCounter.Linearizable | Peripheral/src/ch32l103_rtc.c:73-89 | an advance of at most 2^32 - 2^16 ticks is enough for that |
| RtcCounter.TightBound | Peripheral/src/ch32l103_rtc.c:73-89 | one tick more is not |
| RtcCounter.Rtc.GetCounter | Peripheral/src/ch32l103_rtc.c:73-89 | the call returns the value assembled at its own access times, one held during the call within that bound |
| AdcCalibration.Sort | Peripheral/src/ch32l103_adc.c:1321-1332 | the two loops sort the buffer, and only permute it |
| AdcCalibration.AddMiddle | Peripheral/src/ch32l103_adc.c:1334-1338 | adds up the middle six in 16 bits |
| AdcCalibration.RoundedIsNearest | Peripheral/src/ch32l103_adc.c:1339 | t/6 + (t%6)/3 is the integer nearest to a sixth of t, halves upwards |
| AdcCalibration.NearestExactly | Peripheral/src/ch32l103_adc.c:1339 | which is the one integer that is nearer to a sixth than any other, and greater than any as near |
| AdcCalibration.CalibrationValue | Peripheral/src/ch32l103_adc.c:1315-1342 | the value is 2048 less the rounded mean of the middle six of the sorted samples |
| AdcCalibration.MeanOfMiddle | Peripheral/src/ch32l103_adc.c:1321-1341 | for 12-bit samples: 2048 less the value is the rounded sixth of the sum of all ten samples less the two least and the two greatest |
| AdcCalibration.OrderIndependent | Peripheral/src/ch32l103_adc.c:1321-1341 | every order of the same samples gives the same value |
| AdcCalibration.OutlierProof | Peripheral/src/ch32l103_adc.c:1321-1341 | with at least eight of ten 12-bit samples in an interval nothing overflows and the mean lies in the interval |
| AdcCalibration.CountIsSize | Peripheral/src/ch32l103_adc.c:1321-1341 | "at least eight" counts the places whose sample lies in the interval |
| AdcCalibration.RightUnlessWrapped | Peripheral/src/ch32l103_adc.c:1334-1339 | for samples of any size the mean is right exactly if the sum of the middle six fits in 16 bits |
| AdcSequencer.Ranks.AtAfterSet | Peripheral/src/ch32l103_adc.c:504-530 | setting a regular rank sets that rank and no other |
| AdcSequencer.Ranks.LengthAfterSet | Peripheral/src/ch32l103_adc.c:522-530 | and leaves the regular length |
| AdcSequencer.Times.AtAfterSet | Peripheral/src/ch32l103_adc.c:485-502 | setting a sample time sets that channel's and no other |
| AdcSequencer.InjectedAtAfterPut | Peripheral/src/ch32l103_adc.c:786-792 | setting an injected rank up to the length sets that rank, right-aligned, and no other, and keeps the length |
| AdcSequencer.InjectedLengthKeptExactly | Peripheral/src/ch32l103_adc.c:786-792 | for all ranks: the length is kept unless the rank is the one just after the last and the channel's low bits differ from it |
| AdcSequencer.InjectedLengthAfterPut | Peripheral/src/ch32l103_adc.c:786-792 | and in that case becomes the channel's low two bits plus one |
| AdcSequencer.InjectedBeyondLength | Peripheral/src/ch32l103_adc.c:786-792 | a channel for a rank beyond the length is stored in no place |
| AdcSequencer.PlaceAfterCall | Peripheral/src/ch32l103_adc.c:786-792 | for all ranks and places: a place changes only if the rank is within the length and right-aligned falls on it, and then takes the channel |
| AdcSequencer.InjectedAfterLength | Peripheral/src/ch32l103_adc.c:806-816 | changing the length renumbers the ranks from the right and moves no channel |
| AdcSequencer.Adc.RegularChannelConfig | Peripheral/src/ch32l103_adc.c:481-531 | updates the five bits of the rank and the three of the sample time, and no other bit of any register |
| AdcSequencer.Ranks.AtIsThere | Peripheral/src/ch32l103_adc.c:504-530 | ranks 1 to 6 stand in RSQR3, 7 to 12 in RSQR2, 13 to 16 in RSQR1, five bits each from the lowest up |
| AdcSequencer.Ranks.SetWrites | Peripheral/src/ch32l103_adc.c:504-530 | setting a rank writes its five bits and no other of the three registers |
| AdcSequencer.Times.AtIsThere | Peripheral/src/ch32l103_adc.c:485-502 | the times of channels 0 to 9 stand in SAMPTR2, the others in SAMPTR1, three bits each |
| AdcSequencer.Times.SetWrites | Peripheral/src/ch32l103_adc.c:485-502 | setting a time writes its three bits and no other of the two registers |
| AdcSequencer.Adc.InjectedChannelConfig | Peripheral/src/ch32l103_adc.c:763-793 | updates the five bits of the injected rank and the three of the sample time, and no other bit of any register |
| AdcSequencer.InjectedWrites | Peripheral/src/ch32l103_adc.c:786-792 | the five bits that a call writes, for every rank and length in the register |
| AdcSequencer.RightAligned | Peripheral/src/ch32l103_adc.c:788-790 | the last rank stands in bits 19 to 15 and every rank just below the next |
| AdcSequencer.RankIsThere | Peripheral/src/ch32l103_adc.c:786-792 | the channel of a rank is what stands there |
| AdcSequencer.Adc.InjectedSequencerLengthConfig | Peripheral/src/ch32l103_adc.c:806-816 | the length is the one given; the four places, and all other bits of the register, keep what they held |
| AdcSequencer.LengthWrites | Peripheral/src/ch32l103_adc.c:806-816 | bits 21 and 20 become one less than the length, and no other bit changes |
| AdcSequencer.Adc.Run | Peripheral/src/ch32l103_adc.c:481-816 | after any run of the three calls, with any rank the header file allows, each regular rank, each place of the injected register and each channel's sample time show what was last given to them, under the injected length of that moment; the injected length is what the calls made it, and the regular one what it was |
| AdcSequencer.RanksWithinLength | Peripheral/src/ch32l103_adc.c:763-793 | so, if no call changes the length and no injected rank is beyond it, the length is what it was and each injected rank shows the channel last given to it, also in the bits where the converter reads it |
| GpioInit.Gpio.Loop | Peripheral/src/ch32l103_gpio.c:102-126 | each of the two loops sets the nibble and the latch of just the selected pins among its eight |
| GpioInit.Gpio.Init | Peripheral/src/ch32l103_gpio.c:88-161 | exactly the selected pins get the configuration and, for the pulled inputs, the latch; all others and the reserved bits keep theirs; in bits, each selected pin has those of its mode, or'ed with the speed for an output, and 0x28 and 0x48 leave its level low and high |
| GpioInit.ConfiguredDrives | Peripheral/src/ch32l103_gpio.c:93-161 | that, for every mode and speed; for those of the header file bits 3 and 2 of the mode stand above the speed of an output, or above 0 |
| GpioInit.SamePort | Peripheral/src/ch32l103_gpio.c:88-161 | the sixteen pins and the reserved bits determine the registers |
| GpioInit.CommuteExactly | Peripheral/src/ch32l103_gpio.c:88-161 | two calls may be exchanged exactly if their masks are disjoint or their settings agree |
| GpioRemap.BothCodes | Peripheral/inc/ch32l103_gpio.h:85-113 | the codes of split fields clear just the field of their peripheral and set the mapping their name says |
| GpioRemap.SecondCodes | Peripheral/inc/ch32l103_gpio.h:127-128 | the same for the codes of PCFR2 |
| GpioRemap.ThirdCodes | Peripheral/inc/ch32l103_gpio.h:117-123 | the same for the codes of PCFR1 |
| GpioRemap.Afio.PinRemapConfig | Peripheral/src/ch32l103_gpio.c:454-558 | on every code of the header file: the peripheral named has the mapping, or none, every other field and bit outside SW_CFG what it had, and SW_CFG is written as ones, or left alone by the two codes of PCFR2 |
| GpioRemap.Afio.PinRemapSwj | Peripheral/src/ch32l103_gpio.c:530-548 | the code that disables the debug port writes 4 to SW_CFG, or 0 to enable it, and changes nothing else |
| GpioRemap.Afio.Run | Peripheral/src/ch32l103_gpio.c:454-558 | after any run of calls each peripheral has the mapping of the last call that named it, SW_CFG what it was last given, and the bits outside every field are what they were |
| GpioRemap.AllOfFirst | Peripheral/src/ch32l103_gpio.c:454-558 | every bit of PCFR1 is of a field, of SW_CFG or of the rest |
| GpioRemap.AllOfSecond | Peripheral/src/ch32l103_gpio.c:454-558 | every bit of PCFR2 is of a field or of the rest |
| Sbrk.NoWrapExactly | Debug/debug.c:187-188 | no request is accepted by wrapping around exactly if the heap is smaller than half the address space |
| Sbrk.Heap.Sbrk | Debug/debug.c:181-192 | the break moves by the increment and its old value is returned exactly if it stays within the heap; a refused call changes nothing |
| Sbrk.Tiles | Debug/debug.c:181-192 | while the heap only grows, every address below the break is in exactly one block and no other address is in any |
| Sbrk.Heap.Run | Debug/debug.c:181-192 | every run returns the answers of its increments one after another: the blocks are those of the accepted increments, the break is _end plus their sum, within the heap, and while none is negative they tile it |
| Sbrk.BreakIsTotal | Debug/debug.c:181-192 | the break after any increments is the old one plus the sizes of the blocks granted |

## Left out

- FlashErase.EraseRange: takes requests whose end does not wrap around 32 bits; RequestAccepted says what the checks make of the others.
- FlashWrite.WriteRange: the same, and the buffer must hold as many words as the length asks for.
- FlashRuns.Step: leaves out range erases and writes whose end wraps around 32 bits and writes from a buffer that is too short, as the two lines above; every other call is taken.
- FlashRuns.Run: the same.
- FlashOperations.WaitForLastOperation: BSY and WRPRTERR are two reads of STATR in the source; here WRPRTERR does not change in between.
- CanTransmit.Transmit: leaves out messages whose RTR field, or IDE field of an extended one, has its lowest bit set; that bit falls on the request bit and starts the transmission before the frame is complete.
- CanTransmit.TransmitFd: the same.
- CanReceive.Receive: the request to release the FIFO is a write to RFIFO0; the queue behind the mailbox is not modelled.
- GpioRemap.Afio.PinRemapConfig: SW_CFG cannot be read back on the part; here the register holds what was last written to it.
- Sbrk.Heap.Sbrk: takes a heap smaller than half the address space, as every memory of the part is.
- The reload of OBR and WPR from the option bytes at reset: OBR is an input.
- The flash latency, flag and interrupt functions, FLASH_GetUserOptionByte and its like: single reads and writes.
- CAN_Init, CANFD_Init and the filters: register scripts with undocumented addresses.
- CAN_CancelTransmit: it reads and writes back TSTATR, whose request-completed bits may clear when written with one.
- CAN_BS1_ModeConfig: its shifts and its comment disagree about the fields.
- RTC_GetDivider: reads two halves without any guard, so there is nothing of the kind to prove; RTC_SetCounter and the other setters are pairs of writes.
- The start of the converter in Get_CalibrationValue: the ten conversion results are parameters.
- ADC_RegularChannelConfig for ranks above 16 and ADC_InjectedChannelConfig for ranks above 4, which the header file does not allow.
- GPIO_IPD_Unused, GPIO_EXTILineConfig and the single-pin functions.
- CherryUSB, the mass-storage example, the clock tree, timers and serial ports are not part of this model.
- Interrupt handlers, delays, formatted output and the single-bit setters of the remaining peripherals.
