# xusb-boot: a verified model

xusb-boot is a USB flash bootloader for XMEGA microcontrollers together with the Python
script that drives it. This project models both ends of the flashing protocol, the checksum
the script relies on, the endpoint handshake underneath, the self-programming assembly, the
start-up code that chooses between bootloader and application, and the control endpoint.
Paths below are relative to the repository.

`dafny verify dfyconfig.toml` checks everything.

## How the files fit together

| file | contents |
|---|---|
| Bits.dfy, Multiples.dfy | words as bit sequences (polynomials over GF(2)); multiples of a page size without nonlinear arithmetic |
| NvmChecksum.dfy | the 24-bit checksum of the memory controller: the code, its definition as a polynomial remainder, what it detects |
| Crc32.dfy | the unused CRC-32 helper against the right-shifting form of section 8 of RFC 1952 |
| NvmController.dfy | the memory controller; all hardware assumptions about flash |
| Protocol.dfy | the flashing protocol of the device as a state machine without buffers, and its runs |
| Channel.dfy | the one-slot report channel; all hardware assumptions about endpoint 1 |
| Firmware.dfy | the firmware as a class over arrays, proved to implement Protocol and Channel |
| Host.dfy | the script as methods driving a firmware object, up to `WriteHexfile` |
| Handshake.dfy | the channel again, one memory access at a time, in every interleaving with the bus |
| FlashRuns.dfy | the script, its driver and the firmware taking turns in any order |
| SelfProgram.dfy | the self-programming assembly at register level, proved to have the effects NvmController.dfy assumes |
| Startup.dfy | the SRAM wipe and the reset decision, over whole lives of the chip |
| Control.dfy, ControlPipe.dfy | endpoint 0: the answers to control requests; the code as a class |
| ControlRuns.dfy | endpoint 0 on a busy bus, one memory access at a time; what holds in every run |
| ControlOrder.dfy, ControlAddress.dfy, ControlTaken.dfy, ControlBuffers.dfy, ControlFair.dfy | one property of endpoint 0 each: packets in order and transfers, address changes, addresses taken, buffer ownership, delivery; each with the exact condition on SETUP packets |
| Schedules.dfy, Memory.dfy | infinite schedules; memcpy |

Where the source updates state in place, the code is a class (or a method with a loop) whose
methods are proved equal to functions on values; the theorems over runs are about those
functions.

## The central result

`Host.WriteHexfile` covers every image with a highest address, every device state in which
the bootloader waits for a command, and every valid page and flash size. It states exactly
how the script ends (`Host.Verdict`), and that whenever it ends without an exception the
application flash equals the padded image byte for byte and the device has left the loop.

There the device polls once between a packet and its report. `FlashRuns.FlashingEnds` removes
that: the script, the driver's IN tokens and the single memory accesses of the firmware may be
interleaved in any fair order, and the script still ends with the same verdict and the same
flash. `FlashRuns.FlashingSafe` needs no fairness.

The comments and messages of the script speak of the size of the hex file, but the code uses
the highest *address*. The model follows the code, and the consequences are part of the
verdict:

- highest address 0: the device is told to expect 0 bytes, its 32-bit counter wraps, the
  checksum request is taken for data, and the script raises an exception;
- highest address at the start of a page: that byte is not sent. The device really lacks it,
  and the checksum always shows this, unless the byte is 0xFF anyway;
- highest address equal to the flash size: the size check lets it pass, the byte is dropped
  by the conversion to `hex_data`, and the script succeeds (the contract of `WriteHexfile`
  says that this is the only case in which success does not mean the whole image is in flash);
- every other image that fits succeeds.

`Host.OneByteImages` gives one image for each of the first three cases.

More places where the code does something other than what one would expect:

- `SP_ReadFlashPage` copies exactly one page if and only if the page size is a multiple of
  512 (`SelfProgram.ReadCountExact`); the other loop, `SP_LoadFlashPage`, is right for every
  even page size.
- (UNF set, BUSNACK0 clear) on the IN endpoint is reachable, although the hardware raises UNF
  only while BUSNACK0 is set (`Handshake.StaleUnfReachable`); the handshake is correct all the
  same (`Handshake.HandshakeSafe`, `Handshake.EveryAnswerArrives`).
- A SETUP packet cannot be refused and may arrive while the firmware acts on an older request;
  the comment at src/xusb/xmega/usb_xmega.c:283 expects trouble there. Two failures, each as a
  concrete run from a bus reset: after the poll has read the OUT status, a SET_ADDRESS is
  answered with the second chunk of the descriptor asked for before
  (`ControlOrder.LateSetup`); while SET_ADDRESS is being answered, the next request is lost,
  the host takes the empty packet for its status packet, and the device takes the address
  (`ControlAddress.LateRequest`). The next section says exactly when such things happen.
- The 24-bit checksum does not detect every pair of flipped bits: bit i of one word and bit
  i + 1 of the next cancel. `NvmChecksum.CrcDetectsPair` says exactly which changes of two
  neighbouring words go unnoticed, and `NvmChecksum.CrcDetects` which changes at all.

## Late SETUP packets

Every property of endpoint 0 comes with the states of the machine in which an arriving SETUP
packet can break it. IN tokens, OUT packets and bus resets may come between any two accesses.
A run is harmless if none of its SETUP packets arrives in such a state. Then the property holds
in every harmless run; and after every harmless run a SETUP packet that comes now can break it
if and only if the state is one of these. The conditions speak of the next access of the
firmware, the flags and the old request only.

| property | breaking states | holds in harmless runs | exactly |
|---|---|---|---|
| the packets of the reply, in order, no others | `ControlOrder.Spoils` | `AnswersInOrder` | `OrderExact` |
| descriptor transfers with their status stage | `ControlOrder.SpoilsTransfer` | `ChunkedTransfer` | `TransferExact` |
| an address changes only for its own status packet | `ControlAddress.Risky` | `AddressChange` | `AddressExact`, `RiskyMisleads` |
| the address is taken once the host holds the status packet | `ControlOrder.Arms` | `AddressTaken` | `TakenExact` |
| the IN buffer is written only while IN is refused | `ControlBuffers.Overruns` | `BuffersOwned` | `BuffersExact` |
| a request is answered in every fair run | `ControlFair.Deaf`, beside `Spoils` | `ControlRead` | `HeardExact`, `NeverAnswered` |

`Spoils` are the states from which the firmware goes on to arm the IN endpoint for the older
request, and the copy of the OUT buffer, as the packet is then copied twice. In the states of
`Deaf` the new request is overlooked, or given a stall meant for the older one, and is never
sent a packet. In every other state a request for a descriptor is answered in full.

## Hardware assumptions

- Flash (NvmController.dfy): erasing sets bytes to 0xFF; loading the page buffer and programming can
  only clear bits; the page buffer is blank after a flush and after a page write; erase, flush
  and write leave the controller busy until it is waited for; the CRC commands halt the CPU,
  and the application CRC is the function of crc.py.
- Endpoint 1 (Channel.dfy): an OUT packet is accepted only while BUSNACK0 is clear and sets
  it; an IN token raises UNF if BUSNACK0 is set and otherwise delivers the buffer and sets it.
- Endpoint 0 (Control.dfy): a SETUP packet is always accepted, ends a stall and makes both
  directions refuse; otherwise as endpoint 1, with a completion flag instead of UNF.
- Reset (Startup.dfy): each reset sets its flag in RST.STATUS, and a power-on that of the button
  too if it is held; flags stay until power-on or until a one is written to them; SRAM survives all resets but power-on and brown-out.
- Addresses X and Z carry into RAMPX and RAMPZ; the `spm` instruction does what NVM.CMD says
  if CCP has just been written with the signature.

## Model

| member | source | states |
|---|---|---|
| Host.WriteHexfile | scripts/xusbboot/bootloader.py:119-152 | for every image and every waiting device: success exactly when the highest address m is positive and at most the flash size, and the byte at m is 0xFF if m is below the flash size and starts a page; the error otherwise (`Expected`, `Verdict`); on success flash holds every image byte below the flash size and 0xFF everywhere else, and the device was reset; an image that is too large leaves the device untouched |
| Host.VerdictReached | scripts/xusbboot/bootloader.py:127-148 | the checksum comparison after the page loop accepts exactly the images whose flash is complete |
| Host.VerdictExpected | scripts/xusbboot/bootloader.py:119-148 | the verdict in numbers: when it is success, and which error it is for which images; the two checksums of a reported mismatch really differ |
| Host.HexDataPadded | scripts/xusbboot/bootloader.py:127-134 | `hex_data` has the bytes of the image in their places and 0xFF in every gap |
| Host.SuccessKeepsImage | scripts/xusbboot/bootloader.py:130-135 | where the verdict is success, the padded `hex_data` holds the whole image if and only if the highest address is not the flash size |
| Host.OneByteImages | scripts/xusbboot/bootloader.py:130-148 | concrete images for the three corner cases: unexpected status, real checksum mismatch, success without the byte |
| Host.RegionFlash | scripts/xusbboot/bootloader.py:130-143 | after the page loop flash is the padded image, with 0xFF for a last byte that starts a page; the session is over unless its length was 0 |
| Host.EndFits | scripts/xusbboot/bootloader.py:130-133 | the computed end exceeds the flash size exactly when the highest address does, is 0 exactly for address 0, and equals the address exactly at a page boundary |
| Host.WriteRegion | scripts/xusbboot/bootloader.py:138-143 | erase, write_start and all pages are answered OKAY, and the device holds exactly the bytes sent, even when it skipped the erase |
| Host.WritePage | scripts/xusbboot/bootloader.py:114-117 | sends the page in 64-byte packets, all accepted, and extends the session by exactly that page |
| Host.WriteDataPacket | scripts/xusbboot/bootloader.py:104-112 | refuses other lengths without talking to the device; otherwise the packet is one protocol step and the outcome is the status the protocol answers, which in a session is OKAY |
| Host.CheckAndReset | scripts/xusbboot/bootloader.py:145-152 | raises the mismatch or the swallowed-request error, or halts the device |
| Host.ComputeCrc | scripts/xusbboot/bootloader.py:78-89 | an erased device's checksums, NotErased from one that has not been erased, and the unexpected status from one in a session; never stale bytes behind a short answer |
| Host.WriteStart | scripts/xusbboot/bootloader.py:91-102 | an erased waiting device enters a session of exactly this start and size if both are whole pages, and otherwise each refusal is raised as its own error and changes nothing; in a session the request is data |
| Host.Erase | scripts/xusbboot/bootloader.py:70-73 | succeeds on every device that has not been reset |
| Host.StatusMeans | scripts/xusbboot/bootloader.py:44-102 | only a report of kind 0 with status 0 is taken for success; every other report is raised as its error |
| Host.GetBootInfo | scripts/xusbboot/bootloader.py:50-68 | a waiting device reports its true version, name, flash size and page size, through both byte encodings; otherwise the outcome is the unpacked report |
| Host.Transact | scripts/xusbboot/bootloader.py:36-41 | one write and read is one protocol step, and the report read is its answer over the bytes of the report before |
| Host.Session | src/boot_protocol.c:116-200 | any sequence of requests to a fresh bootloader: the firmware ends in the state of the protocol's run, and the memory controller was never misused |
| FlashRuns.FlashingEnds | scripts/xusbboot/bootloader.py:119-152 | under every fair interleaving of script, driver and firmware accesses the script ends with the outcome of `Expected`, and on success the flash holds the image with 0xFF everywhere else and the device was reset |
| FlashRuns.FlashingSafe | scripts/xusbboot/bootloader.py:119-152 | under every schedule, fair or not, a script that has ended has the outcome of `Expected`, and on success the flash holds the image with 0xFF everywhere else from then on |
| FlashRuns.StageNext | scripts/xusbboot/bootloader.py:119-145 | whatever request the script makes next, the protocol's answer takes both to the next stage |
| FlashRuns.StageEnds | scripts/xusbboot/bootloader.py:132-152 | the script ends with the verdict, and asks for a reset exactly on success, with the flash complete |
| Protocol.ReachableStates | src/boot_protocol.c:52-153 | in every run from boot: an empty flag means erased and all 0xFF; a write session means erased and not empty; aligned counters; no flash byte changes before the first accepted erase; erased exactly when such an erase happened |
| Protocol.StepKeepsInv | src/boot_protocol.c:116-153 | every request keeps the invariant, including the wrap-around of the 32-bit counters and the page position staying a multiple of 64 below the page size |
| Protocol.NextPage | src/boot_protocol.c:138-140 | page-aligned 32-bit counters stay page-aligned when they wrap |
| Protocol.Replay | src/boot_protocol.c:124-147 | after any number of data packets of an accepted session, flash is the old flash ANDed with all whole pages sent and unchanged elsewhere; the buffer holds the tail; the counters are the matching functions |
| Protocol.SessionLength | src/boot_protocol.c:71-84 | a session of length R takes exactly R/64 packets, or 2^32/64 if R is 0, and answers [0, 0] to every packet until then, whatever its first byte |
| Protocol.WriteSession | src/boot_protocol.c:71-147 | from the bytes of an accepted CMD_WRITE on: bytes 1-4 are the start, bytes 5-8 the length; after the packets behind it, of flash exactly the whole pages received have changed, each bit to its old value ANDed with the bit sent for it, and the counters and the page buffer are the matching functions |
| Protocol.WriteRequest | src/boot_protocol.c:71-87 | refused with status 3 before an erase, with status 2 unless start and length are multiples of the page size, changing nothing; otherwise answered with status 0 |
| Protocol.CrcRequest | src/boot_protocol.c:89-102 | the nine bytes of the answer carry the two checksums little-endian; status 3 before an erase |
| Protocol.EraseRequest | src/boot_protocol.c:60-69 | flash is 0xFF everywhere afterwards, whether the erase was carried out or skipped |
| Protocol.GetBootInfoRequest | src/boot_protocol.c:56-59 | the offsets of version, name, flash size and page size in the answer |
| Protocol.TestRequest | src/boot_protocol.c:103-106 | 64 bytes of memory from the address in bytes 1 and 2 |
| Protocol.SilentRequest | src/boot_protocol.c:107-113 | a reset leaves the loop and unknown requests do nothing, both without an answer |
| Firmware.Bootloader.constructor | src/boot_protocol.c:171-173 | a fresh bootloader on any flash is the protocol's boot state with an idle channel |
| Firmware.Bootloader.ParseCmd | src/boot_protocol.c:52-113 | implements every command of the protocol; keeps the controller unmisused and its page buffer blank in a session |
| Firmware.Bootloader.EraseFlash | src/boot_protocol.c:60-69 | erases exactly when the flash is not known to be empty, only on an idle controller |
| Firmware.Bootloader.StartWrite | src/boot_protocol.c:71-87 | locked before an erase, refuses misalignment, otherwise opens a session on a blank page buffer |
| Firmware.Bootloader.ReportCrc | src/boot_protocol.c:89-102 | reports the checksum of the application flash little-endian, without misusing the controller although it waits only once |
| Firmware.Bootloader.TakeData | src/boot_protocol.c:124-147 | implements a data packet of the protocol in place on the page buffer, in bounds |
| Firmware.Bootloader.WritePage | src/boot_protocol.c:134-143 | programs the buffered page on an idle controller with a blank buffer and steps the wrapping counters |
| Firmware.Bootloader.BootloaderTask | src/boot_protocol.c:116-153 | one pass of the main loop is exactly one read, protocol step and send of the channel |
| Firmware.Bootloader.ReadVendorReport | src/vendor_report.c:38-50 | takes the OUT buffer only when it is owned, overlays the last request, and frees it |
| Firmware.Bootloader.SendVendorReport | src/vendor_report.c:15-36 | sends a waiting answer exactly when the host has been refused, once |
| Channel.ExchangeIsStep | src/vendor_report.c:11-50 | for a waiting host the request is served exactly once and the report starts with the answer |
| Channel.EmptyPacketIgnored | src/boot_protocol.c:116-147 | a packet without any byte is taken off the endpoint and has no other effect |
| Handshake.HandshakeSafe | src/vendor_report.c:11-50 | in every interleaving of firmware accesses, IN tokens and packets of a host that waits for answers: packets are taken in order and once, reports are exactly the protocol's answers in order, and no buffer is touched while the hardware owns it |
| Handshake.ReportsAreAnswers | src/vendor_report.c:11-50 | in every interleaving with a host that sends full packets and waits: report k starts with the answer that the run of the protocol gives to packet k |
| Handshake.OwedExact | src/vendor_report.c:15-36 | an answer is owed if and only if the protocol answers the last packet and its report has not been received |
| Handshake.EveryAnswerArrives | src/vendor_report.c:15-36 | in every infinite run from an idle channel in which neither the firmware nor the IN tokens stop, an answer that is owed at any time arrives, and the reports received are the protocol's answers in order |
| Handshake.AnswerArrives | src/vendor_report.c:15-36 | the same from any state that satisfies the invariant: in every infinite run in which neither the firmware nor the IN tokens stop, an answer that is owed arrives |
| Handshake.ActionAdvances | src/vendor_report.c:11-50 | no action of anybody takes an owed answer further from the host, and the next action of the party whose turn it is takes it closer |
| Handshake.NextKeepsInv | src/vendor_report.c:11-50 | every single access, token or packet keeps the handshake invariant |
| Handshake.PassIsTask | src/boot_protocol.c:116-153 | undisturbed, the single accesses make up exactly one pass of bootloader_task |
| Handshake.StaleUnfReachable | src/vendor_report.c:11-36 | a concrete interleaving leaves UNF set on an armed IN buffer |
| NvmChecksum.XmegaNvmCrc | scripts/xusbboot/crc.py:32-40 | fails exactly on odd lengths; otherwise the result is the remainder by the generator of the words that the byte pairs are, first byte low (`IsChecksum`), so two bytes are their own checksum |
| NvmChecksum.NvmCrcIsChecksum | scripts/xusbboot/crc.py:32-40 | every even byte string: the checksum is the remainder of the numbers data[2n] + 256 data[2n+1] |
| NvmChecksum.ChecksumUnique | scripts/xusbboot/crc.py:32-40 | that determines it |
| NvmChecksum.WordValue | scripts/xusbboot/crc.py:38 | the first byte of a pair is the low one |
| NvmChecksum.CrcIsRemainder | scripts/xusbboot/crc.py:23-40 | the checksum of words w is a remainder of the sum of w[i] x^(n-1-i) by x^24+x^23+x^4+x^3+x+1 |
| NvmChecksum.RemainderUnique | scripts/xusbboot/crc.py:23-30 | a polynomial has only one such remainder |
| NvmChecksum.PolyValue | scripts/xusbboot/crc.py:23 | the bit pattern of the generator is 0x80001b |
| NvmChecksum.CrcXor | scripts/xusbboot/crc.py:23-40 | on messages of equal length the checksum is XOR-linear |
| NvmChecksum.CrcAppend | scripts/xusbboot/crc.py:32-40 | crc(a ++ b) is x^(words of b) crc(a) + crc(b), reduced |
| NvmChecksum.CrcDetectsWord | scripts/xusbboot/crc.py:23-40 | every corruption inside one word is detected, at any position and length |
| NvmChecksum.CrcDetectsByte | scripts/xusbboot/crc.py:32-40 | byte strings that differ at most in one byte have equal checksums if and only if they are equal |
| NvmChecksum.CrcDetects | scripts/xusbboot/crc.py:23-40 | two messages of equal length have the same checksum if and only if their difference is a multiple of the generator |
| NvmChecksum.CrcDetectsPair | scripts/xusbboot/crc.py:23-40 | a change of two neighbouring words goes unnoticed if and only if the second change is the first moved up one bit, none lost |
| NvmChecksum.CrcParity | scripts/xusbboot/crc.py:23-40 | two checksums differ in parity exactly when an odd number of message bits differ |
| NvmChecksum.CrcDetectsOddFlips | scripts/xusbboot/crc.py:23-40 | every odd number of flipped bits is detected |
| NvmChecksum.CrcWordInjective | scripts/xusbboot/crc.py:23-30 | the shift-and-reduce step is injective in the register and in the word |
| Crc32.CalcCrc32 | scripts/xusbboot/crc.py:62-66 | equals the right-shifting CRC-32 with 0xEDB88320 on every byte string |
| Crc32.KnownValues | scripts/xusbboot/crc.py:62-66 | the reference has the published values for the empty string and for one letter |
| Crc32.CalcCrc32Byte | scripts/xusbboot/crc.py:45-53 | one byte, up to bit reversal, is eight right-shifting steps |
| Crc32.StepsCommute | scripts/xusbboot/crc.py:47-52 | bit reversal turns a left step into a right step |
| Crc32.ReverseTwice | scripts/xusbboot/crc.py:55-60 | reverse32 is its own inverse |
| Crc32.ReverseBit | scripts/xusbboot/crc.py:55-60 | reverse32 moves bit i to bit 31 - i |
| SelfProgram.Avr.WriteApplicationPageFn | src/spm_interface.S:47-69 | for every buffer and 24-bit address, if the page lies in the section: byte i changes only if i / page size = address / page size, and then to old AND buffer, bit by bit; RAMPZ and the stack are restored, r1 is 0, the controller is idle, and it is misused only if it was busy before |
| SelfProgram.Avr.EraseApplicationPageFn | src/spm_interface.S:23-28 | for every 24-bit address, if the page lies in the section: byte i becomes 0xFF if i / page size = address / page size, and no other byte changes; registers as above |
| NvmController.PageContains | src/spm_interface.S:14-16 | the page of an address is aligned and contains the address |
| NvmController.PageErasedExactly | src/spm_interface.S:14-28 | exactly the bytes with the page number of the address are erased |
| NvmController.PageProgrammedExactly | src/spm_interface.S:30-69 | exactly the bytes with the page number of the address are programmed, bit by bit |
| NvmController.ErasedThenProgrammed | src/spm_interface.S:23-69 | erasing a page and writing it stores the data and leaves every other byte alone |
| SelfProgram.Avr.SpLoadFlashPage | src/sp_driver.S:395-429 | transfers exactly the page as little-endian words for every even page size, although the 8-bit counter of a 512-byte page starts at 0 |
| SelfProgram.Avr.CountDown | src/sp_driver.S:421-426 | the counter reaches zero after exactly the words of the page, in both widths |
| SelfProgram.Avr.SpReadFlashPage | src/sp_driver.S:449-483 | copies as many flash words as its counter says to SRAM and changes nothing else there |
| SelfProgram.CopiedBytes | src/sp_driver.S:449-483 | that copy byte by byte |
| SelfProgram.ReadCountExact | src/sp_driver.S:461-480 | the bytes SP_ReadFlashPage copies are one page if and only if the page size is a multiple of 512; of a page of up to 256 bytes it is the double |
| SelfProgram.Avr.SpWriteApplicationPage | src/sp_driver.S:501-506 | writes the page buffer to the page at r24:r23:r22 and restores RAMPZ |
| SelfProgram.Avr.SpEraseApplicationPage | src/sp_driver.S:345-350 | erases the page at r24:r23:r22 and restores RAMPZ |
| SelfProgram.Avr.SpEraseFlashBuffer | src/sp_driver.S:547-550 | flushes the page buffer and restores RAMPZ |
| SelfProgram.Avr.SpCommonSpm | src/sp_driver.S:790-798 | issues the prepared command at RAMPZ and r25:r24 with the word in r1:r0, restores RAMPZ and clears r1 |
| SelfProgram.Avr.SpLoadFlashWord | src/sp_driver.S:369-373 | loads the word r23:r22 into the page buffer at r25:r24 and restores RAMPZ |
| SelfProgram.Avr.SpWaitForSpm | src/sp_driver.S:700-706 | leaves the controller idle and the command register empty |
| SelfProgram.WritePageSequence | src/spm_interface.S:53-64 | flush, load and write, each waited for, program exactly the loaded page |
| Startup.Mcu.WipeSram | src/main_pre_init.S:22-57 | SRAM is 0xCC everywhere except the four preserved bytes, for every size divisible by 4 |
| Startup.Mcu.EraseLoop | src/main_pre_init.S:41-47 | the four-byte loop fills all of SRAM and ends |
| Startup.Mcu.PreMainBootCheck | src/main.c:32-87 | the decision for every RST.STATUS (`Decides`); in boot_magic each of the low 8 bits is that bit of RST.STATUS before it was cleared, bit 9 tells whether boot_magic was 0x36f51a68, and all others are 0 (`Reports`) |
| Startup.Mcu.PreInit | src/main_pre_init.S:22-59 | wipe and check together, for the RST.STATUS and boot_magic before the wipe: decision, report, 0xCC everywhere else in SRAM, flags 0x23 of RST.STATUS cleared and all others kept |
| Startup.CauseReports | src/main.c:55-58 | bit by bit, what the application reads in boot_magic |
| Startup.DecisionDecides | src/main.c:73-76 | the decision also where several flags are set |
| Startup.ButtonAtPowerOn | src/main.c:73 | with power-on and button both in RST.STATUS only an empty flash starts the bootloader |
| Startup.WipeKeepsMagicOnly | src/main_pre_init.S:4-5 | two memories are equal after the wipe if and only if their boot_magic was equal, and it is kept |
| Startup.NothingLeaks | src/main.c:51-59 | what starts after a reset can tell two old memories apart if and only if one ended a bootloader session and the other did not |
| Startup.ResetDecision | src/main.c:74-79 | after any history the bootloader runs if and only if flash is empty, or this reset is the button with VBUS outside a session, or a software reset with the magic; flags left by earlier resets do not matter |
| Startup.SessionReset | src/boot_protocol.c:171-174 | in every life, a reset of any cause out of a bootloader session enters the application if and only if word 0 is not 0xFFFF |
| Startup.LivesKeepInv | src/main.c:59 | in every life the three flags the decision reads are clear between resets |
| Startup.LivesFollow | src/main.c:32-87 | on a programmed chip whose application leaves boot_magic alone, any sequence of resets of any causes follows a three-state machine |
| Startup.ButtonAlternates | src/main.c:61-73 | then successive button presses with VBUS alternate between bootloader and application |
| Startup.PowerOnSettles | src/main.c:32-87 | a programmed chip starts its application at power-on, whatever SRAM holds and whether or not the button is held |
| ControlOrder.AnswersInOrder | src/xusb/usb_requests.c:68-140 | in every harmless run, access by access, the host collects for every request the packets of its reply in order and no others |
| ControlOrder.OrderExact | src/xusb/xmega/usb_xmega.c:271-296 | after every harmless run a SETUP packet that comes now can be given a packet that is not in its reply if and only if the firmware is in a state of `Spoils` |
| ControlOrder.ChunkedTransfer | src/xusb/usb_requests.c:46-66 | in every harmless run the packets collected for a descriptor concatenate to the front of the first min(length, wLength) bytes, full except the last; a host that sees the end has everything; the status stage is open only then (section 5.5.3 of USB 2.0) |
| ControlOrder.TransferExact | src/xusb/usb_requests.c:46-66 | after every harmless run a SETUP packet that comes now can break a descriptor transfer or its status stage if and only if the firmware is in a state of `SpoilsTransfer` |
| ControlOrder.LateSetup | src/xusb/xmega/usb_xmega.c:279-293 | a concrete run in which a SETUP packet inside a poll makes the device answer SET_ADDRESS with the second chunk of a descriptor |
| ControlAddress.AddressChange | src/xusb/usb_requests.c:150-157 | in every run whose SETUP packets avoid the answering of a SET_ADDRESS, the address changes only by a bus reset to 0, or to the value of a SET_ADDRESS whose own empty status packet, and no other since, has been collected, stale completion flags notwithstanding (section 9.4.6 of USB 2.0) |
| ControlAddress.AddressExact | src/xusb/usb_requests.c:82-84 | after every such run a SETUP packet that comes now can make the device take an address whose status packet was not collected if and only if SET_ADDRESS is being answered and its status packet is not armed |
| ControlAddress.RiskyMisleads | src/xusb/usb_requests.c:82-84 | at such a moment every SETUP packet does: the old address is set, with the new request on the bus |
| ControlAddress.LateRequest | src/xusb/usb_requests.c:82-84 | a concrete run from a bus reset in which any request that follows SET_ADDRESS too early is taken to have been answered, and the address is set |
| ControlTaken.AddressTaken | src/xusb/usb_requests.c:150-154 | in every harmless run, once the host holds the packet for SET_ADDRESS and the firmware has nothing left to look at, the address is set |
| ControlTaken.TakenExact | src/xusb/usb_requests.c:150-154 | after every harmless run a SETUP packet that comes now can leave the host with a packet and the device without the address if and only if the firmware goes on to arm the IN endpoint |
| ControlBuffers.BuffersOwned | src/xusb/usb_requests.c:46-66 | in every harmless run the firmware writes the IN buffer only while the hardware refuses to send it |
| ControlBuffers.BuffersExact | src/xusb/usb_requests.c:46-66 | after every harmless run a SETUP packet that comes now can make the firmware write a buffer the hardware owns if and only if it is about to hand over a chunk with more behind it, or copies the OUT buffer |
| ControlFair.ControlRead | src/xusb/usb_requests.c:86-111 | for a SETUP packet in any reachable state outside `Spoils` and `Deaf`: in every infinite run in which the firmware, IN tokens and status packets do not stop and no SETUP packet follows, the whole descriptor is collected and the status packet accepted |
| ControlFair.HeardExact | src/xusb/usb_requests.c:86-111 | in a state in which a SETUP packet spoils nothing, all fair runs answer a request for some bytes of a descriptor in full if and only if the state is not `Deaf` |
| ControlFair.NeverAnswered | src/xusb/xmega/usb_xmega.c:130-132 | a request that arrives while usb_ep0_out or a stall is still due for an older one is never given a packet, however long the host asks |
| ControlRuns.HappenSound | src/xusb/xmega/usb_xmega.c:271-296 | every access, token, SETUP packet and bus reset keeps what relates flags, event and program counter: no SETUP packet or completion is forgotten by the interrupt flags |
| ControlRuns.SetupOwned | src/xusb/xmega/usb_xmega.c:279-293 | in every run the OUT buffer is read as a SETUP packet only while the hardware refuses OUT packets, and it then holds the last SETUP packet sent |
| ControlRuns.AccessesArePoll | src/xusb/xmega/usb_xmega.c:271-296 | undisturbed, the single accesses make up exactly one poll |
| ControlPipe.Ep0.TrncomplVect | src/xusb/xmega/usb_xmega.c:271-296 | one poll of the code is the poll of the model |
| ControlPipe.Ep0.UsbHandleSetup | src/xusb/usb_requests.c:68-140 | the device after any request, in numbers (`Handled`): GET_STATUS hands over two zero bytes, SET_CONFIGURATION 0 and 1 are taken and others stalled, GET_REPORT of interface 0 hands over the endpoint 1 IN buffer, a descriptor is found by type, index and interface and cut to wLength, everything unknown is stalled, and requests neither standard nor class do nothing |
| Control.HandleMeans | src/xusb/usb_requests.c:68-140 | the same for the device as a value, so for every reply the theorems about runs speak of |
| Control.ConfigurationReturned | src/xusb/usb_requests.c:112-121 | GET_CONFIGURATION returns what the last accepted SET_CONFIGURATION asked for |
| Control.DecodeBytes | src/xusb/xmega/usb_xmega.c:279-293 | the fields of a request by the bytes of the SETUP packet |
| ControlPipe.Ep0.UsbEp0InMulti | src/xusb/usb_requests.c:46-66 | hands over the next 64 bytes, advances pointer and size together, and opens the status stage when nothing is left |
| ControlPipe.Ep0.UsbHandleControlInComplete | src/xusb/usb_requests.c:150-161 | sets the address or hands over the next packet |
| ControlPipe.Ep0.FillEp0In | src/xusb/usb_requests.c:56 | the front of the IN buffer is the descriptor bytes, the rest of the state is unchanged |
| ControlPipe.Ep0.UsbReset | src/xusb/xmega/usb_xmega.c:47-55 | a bus reset clears the address, both completion flags and the stall, refuses IN, and keeps the configuration |
| ControlPipe.Ep0.UsbCbControlSetup | src/descriptors.c:276-298 | class requests: GET_REPORT of the vendor interface is answered, all others stall |

## Left out

- The contents CMD_TEST reads are a parameter: a memory snapshot that does not change during a session.
- A page write or erase addressed beyond the application section does whatever the parameter `stray` says to that section; the host never asks for one.
- SelfProgram.Avr.SpWaitForSpm: waiting for the controller is one step; how long it takes is not modelled, nor is the time the watchdog allows.
- ControlPipe.Ep0.UsbReset: the USB clock, EPPTR, CTRLA and the reset of endpoint 1 (usb_cb_reset) are not part of endpoint 0; `Channel.Idle` is endpoint 1 after its reset.
- Clocks, DFLL, PLL, calibration rows, SOF counting and the watchdog.
- Parsing of hex files: an image is a map from addresses to bytes with a highest address. A file without any byte has no highest address and is not modelled.
- The wording of exceptions, and the decoding of the microcontroller's name in the boot information.
- scripts/bin/xusbboot-cli, which repeats the write loop, and the enumeration of devices.
- A USB bus reset in the middle of a flashing session: Channel.dfy and Handshake.dfy have none, ControlRuns.dfy has.
- A host that sends a second request before it has read the report for the first: its packets would wait in the endpoint, but it could overtake an answer.
- In ControlRuns.dfy copying a buffer is one access, and the host sends nothing between a bus reset and the poll that notices it.
- The branch of src/xusb/usb_requests.c:33-44 for descriptors in program memory: DESCRIPTORS_IN_PROGMEM is defined nowhere, so it is not compiled.
- Descriptors that lie in the endpoint buffer itself (src/xusb/usb_requests.c:100-102); this firmware has none.
- The contents of the descriptors and the serial number string; their places and sizes are a parameter.
- The remaining entries of sp_driver.S and of the jump table (fuses, lock bits, signature rows, boot section): single commands without a loop.
- SP_EraseApplicationSection is one command of the controller; its RAMPZ set-up depends on the chip.
- SelfProgram.Avr: interrupts, the timing of the CCP window and the saving of return addresses are not modelled.
- Startup.Mcu.WipeSram: for a size not divisible by 4 the loop would not end at zero; the sizes of the supported chips are divisible by 4.
- Linker scripts, makefiles, board files and the bus switch of the split keyboard.
