# Verification of the FMC112 digitiser firmware and host tools

A Dafny 4 model of the control and data paths of an FPGA digitiser and of the host programs that talk to it, with
proofs about whole runs. `dafny verify dfyconfig.toml` checks everything.

The system, from the host inwards:

- The host builds 32-bit command words (`util/command.c`), 64-bit commands on top of them (`util/sip.c`) and Ethernet
  frames that it loads into the packet memory (`util/tge.c`). It sorts the sample stream that comes back into channels
  (`util/fmc112.c`).
- Command words reach the FPGA over a network or over a serial line (`util/RS232Test.tcl`, `src/uartio.vhd`,
  `src/tickgen.vhd`, `src/byte2cmd.vhd`).
- `src/control_interface.vhd` executes them: configuration registers, an auto-incrementing memory port, pulses of three
  clocks, block reads and transfers with back-pressure. `src/pulse2pulse.vhd` carries pulses to another clock.
- `src/ten_gig_eth_packet_gen_simple.vhd` streams a frame out of the packet memory, and
  `src/ten_gig_eth_rx_parser.vhd` recognises frames that come in. `src/channel_avg.vhd` averages samples in blocks.

## How the model is built

- A VHDL process is a method of a class whose fields are the process's registers. Its contract gives the whole new state
  as a function of the old one and of the pins. The theorems are about runs of that function: arbitrary sequences of
  clocks, with arbitrary inputs at each.
- A host loop is a method with a loop on an array, tied to the sequence it leaves in the buffer. What the words mean is
  proved by running them through the interpreter of the control interface, not by comparing them with a second copy.
- Each reference is simpler than what is measured against it: `Interpreter` executes one command word at a time and knows
  no clock; `FrameParsing` reads fields at the byte offsets of RFC 826, RFC 791 and RFC 768; `PacketGen` describes a
  packet as bytes; the pulse handshake is a position on a ring of sixteen.

The central result is `CommandRefinement.Refinement`: the clocked machine, with its registered read request, write strobe
and high half-word, refines the interpreter, for every queue of commands and every timing. `CommandProgress` adds that the
work gets done: each word has a cost in clocks, and once the surroundings have let the machine run for that many clocks
everything that was sent has been executed. `CommandPulse` says what stands in registers and memory at the clocks of a
pulse. `HostRegisters`, `HostMemory`, `Sip` and `TgeEndToEnd` put the encoders in front of the machine and the memory, the replies, the packet
streamer and a parser behind it; `Board` runs machine and streamer together, clock by clock; `SerialCommands` puts the serial
line in front.

## Where the source needs a condition

Some statements that its comments suggest hold only under a condition. Each is proved together with that condition.

- A memory read needs room in the output FIFO when it is interpreted (`src/control_interface.vhd:281-290`): the branch
  has no `else`, but the word is already being popped. The exactly-once property survives exactly when there is room
  (`MemoryReadNeedsRoom`, and over whole runs `ExactlyOnceNeedsRoom`); a run from RESET that breaks it exists for every
  FIFO depth (`MemoryReadCanFail`).
- As long as every memory read finds room when it is interpreted, words for the output FIFO are lost exactly when
  `RoomForRequest` fails (`NothingLostExactly`): a register read never looks at the full flag (`RegisterReadLost`;
  `RegisterReadCanLose` gives a run from RESET), and a memory read looks at one that does not show the word in flight, so
  that it needs two places (`LastPlaceLosesAWord`; `StreamCanLose` gives a run from RESET).
- The handshake's boundary moves by at most one place at every edge, except that it moves by exactly two when a pulse is
  accepted while `in_reset_prev2` is still up (`BoundaryMove`; `TwoPlacesReached` gives a run from reset).
- The pulse that starts the packet streamer is held for six of its clocks (`src/top.vhd:758`, `src/top.vhd:854`,
  `src/top.vhd:902`). One pulse sends one packet exactly when the packet has at least 25 bytes (`OnePacketFrom25`).
- The tick generator gives the frequency in its header comment exactly when DIVISOR is at most half of
  2^COUNTER_WIDTH (`FrequencyCondition`).
- With the default generics the receiver decodes every frame exactly at the bit periods from 831 to 916 clocks
  (`DefaultTolerance`); outside them some phase of the ticks and some line fail.
- The IPv4 checksum folds its sum once. The header verifies exactly when that fold does not carry (`HeaderVerifies`);
  `HeaderCanFail` names addresses for which it does carry.
- The frame buffers are read as 32-bit words by the host. The streamer emits the ARP reply exactly when the host is
  little-endian (`ArpBytesEmitted`).
- A frame that ends before its sixth beat leaves the parser inside it (`FrameNeedsSixBeats`).
- A channel mask with bits above the sixteen channels passes the checks of `main` but does not select as many channels as
  were counted (`ChannelsMatch`, `HighMaskSelectsNothing`), and then does not bring as many points to each as were counted
  on (`PointsMatch`).
- A trigger with a nonzero offset does not start the sums again: the first average after it still has samples from before
  the trigger in it (`SumsAfterTrigger`).
- A 64-bit register command carries its address back out exactly when the address has at most 28 bits, and its opcode
  exactly when the address adds no bit to it (`PackRoundTrip`).
- The word that byte2cmd writes has a thirty-sixth bit left over from the reset byte, and it is written one byte late
  (`SerialLink`).

## Model

| member | source | states |
|---|---|---|
| ControlInterface.Interface.Reset | src/control_interface.vhd:196-206 | RESET clears the registers it names and leaves the write request, the output register and the transfer counter alone |
| ControlInterface.Interface.Clock | src/control_interface.vhd:153-399 | one rising edge of the command process leaves exactly the registers of the transition function that the refinement is about |
| ControlInterface.Interface.WaitForCommand | src/control_interface.vhd:227-234 | a waiting clock clears the pulse register and selects the registers, and pops a word exactly when there is one |
| ControlInterface.Interface.Interpret | src/control_interface.vhd:242-343 | bit 31 of the word decides between the read and the write transitions |
| ControlInterface.Interface.PulseDelay | src/control_interface.vhd:371-375 | the pulse counter falls by one, wrapping in 16 bits, and the machine waits again when it reaches zero |
| ControlInterface.Interface.InterpretRead | src/control_interface.vhd:252-296 | a read word presents the register at its address, status 0 to 10, 16 to 18, configuration 32 to 63, and FFFF at a bad address; 20 starts the memory read, with and without room |
| ControlInterface.Interface.InterpretWrite | src/control_interface.vhd:298-343 | a write word: every address, nothing for a bad one |
| ControlInterface.Interface.MemRead | src/control_interface.vhd:351-368 | one clock of a memory read: done, next word, or waiting with the count restored |
| ControlInterface.Interface.FifoAdvance | src/control_interface.vhd:378-392 | one clock of a data-FIFO transfer: stalled, counted down, or finished |
| CommandRefinement.Refinement | src/control_interface.vhd:191-400 | for every run from RESET with room whenever a memory read is interpreted, the clocked machine refines the word-at-a-time interpreter |
| CommandRefinement.RefinementStep | src/control_interface.vhd:208-399 | every clock from every state that satisfies the refinement invariant keeps it |
| CommandTheorems.InterpretedOnceInOrder | src/control_interface.vhd:227-234 | over every run each command word is interpreted exactly once and in order, or still waits; likewise each data word; the host reads what the output FIFO took, in order |
| CommandTheorems.OutputIsPrefix | src/control_interface.vhd:182-189 | at every clock the words sent are a prefix of the interpreter's output; they all arrive unless counted as lost |
| CommandTheorems.AtRestAgrees | src/control_interface.vhd:215-397 | at rest registers, memory count, address, memory contents, output and pulses equal the interpreter's, and each transfer of n moved n+1 words |
| CommandTheorems.NothingLost | src/control_interface.vhd:254-368 | with one place free per read word and two during a memory read the output FIFO never ignores a word |
| CommandTheorems.NothingLostExactly | src/control_interface.vhd:254-368 | over every run in which each memory read finds room when it is interpreted, no word is ignored by the output FIFO if and only if each clock had room for the word it requested, judged by the state before the clock and whether the host reads |
| CommandTheorems.RegisterReadLost | src/control_interface.vhd:254-279 | the word of a register read is lost exactly when the output FIFO, less what the host reads at that edge, is full |
| CommandTheorems.LastPlaceLosesAWord | src/control_interface.vhd:357-362 | with only one place free during a memory read the next word is lost, exactly when the host does not read at that edge |
| CommandTheorems.MemoryReadNeedsRoom | src/control_interface.vhd:281-290 | two clocks after a memory read is interpreted the exactly-once property holds exactly when there was room, whatever else is queued |
| CommandTheorems.ExactlyOnceNeedsRoom | src/control_interface.vhd:227-290 | over whole runs from RESET the exactly-once property holds at every clock if and only if every memory read found room |
| CommandWitnesses.MemoryReadCanFail | src/control_interface.vhd:281-290 | for every FIFO depth a run from RESET breaks the exactly-once property |
| CommandWitnesses.RegisterReadCanLose | src/control_interface.vhd:254-279 | for every FIFO depth a run from RESET without any memory read loses the word of a register read |
| CommandWitnesses.StreamCanLose | src/control_interface.vhd:351-368 | for every FIFO depth of at least one a run from RESET, with room for every memory read, loses the second word of one |
| CommandTheorems.PulseIsThreeClocks | src/control_interface.vhd:306-375 | a pulse word raises its mask for exactly three clocks |
| CommandTheorems.TransferClock | src/control_interface.vhd:378-392 | a word moves exactly when the source has one and the output has room, and the last one ends the transfer |
| CommandTheorems.TransferProgress | src/control_interface.vhd:335-392 | under every pattern of stalls a transfer has moved exactly the first k words after k ready clocks, goes on while k is at most n, and is over with ready clock n+1 |
| CommandProgress.WorkStep | src/control_interface.vhd:208-399 | every clock that is not stalled and not idle does exactly one clock of the work, where a register word costs 2, a memory store 3, a pulse 4, a memory read 2 and its count, a transfer of n 3+n; new words add their cost |
| CommandProgress.Completes | src/control_interface.vhd:191-400 | once a run behind the last word has had as many unstalled clocks as the words cost, and two, every word has been executed, the queue is empty and the machine at rest |
| CommandProgress.ServedWhenDeep | src/control_interface.vhd:254-368 | words without a transfer, to an output FIFO as deep as the words they return, never stall and always find room, whatever the host does |
| CommandProgress.ServedWhenRead | src/control_interface.vhd:254-368 | the same with an output FIFO of three places and a host that reads at every clock |
| CommandPulse.PulseShows | src/control_interface.vhd:306-309 | at every clock of every run at which PULSE_REG is not zero, the last word interpreted is its pulse word, and registers, address and memory are what the words up to it make of them |
| CommandPulse.LastPulse | src/control_interface.vhd:306-375 | words that end in their only pulse: PULSE_REG is zero up to one clock, holds the mask for exactly three, and is zero from then on, and from the first of them all words have been executed |
| HostRegisters.ExecReadStatus | src/control_interface.vhd:262-265 | executing a status read sends status register k, for every k up to 10, and does nothing else |
| HostRegisters.WriteThenReadRegister | src/control_interface.vhd:255-304 | a register write, then a register read: the low 16 bits of the value from the same register, any other as it was |
| HostRegisters.AddressReadBack | src/control_interface.vhd:271-279 | reads of 17 and 18 return the low and the high half of the address that was set |
| HostRegisters.CountReadBack | src/control_interface.vhd:267-269 | a read of 16 returns the count that was written |
| HostRegisters.UnassignedRead | src/control_interface.vhd:292-295 | a read of any address without a register returns FFFF |
| HostRegisters.UnassignedWrite | src/control_interface.vhd:340-341 | a write to any address without a register does nothing |
| HostRegisters.ExecSendPulse | util/command.c:72-85 | executing a pulse word gives one pulse with the low 16 bits of any mask |
| HostRegisters.LatestHeld | src/control_interface.vhd:301-313 | after any words each register and the memory count hold what was written to them last |
| HostRegisters.RegisterReachesHost | src/control_interface.vhd:196-304 | over the clocked machine, behind any words: the host that reads a register gets what was written to it last, or the zero of RESET |
| HostRegisters.CountReachesHost | src/control_interface.vhd:221-269 | the same for the memory count, which is one after INIT |
| HostRegisters.StatusReachesHost | util/fmc112.c:716-722 | over the clocked machine, behind any words: the host that reads status register k gets what that register showed at some clock of the run |
| HostRegisters.WriteThenReadOverMachine | util/command.c:136-164 | a register written and one read, with one place in the FIFO and six clocks: the host has one word, the value or zero, and all 32 registers are as they should be |
| HostRegisters.StatusOverMachine | util/fmc112.c:716-722 | with one place and four clocks the host has the value of a status register that stands still |
| Network.ConvertInPlace16 | util/command.c:39-46 | the first n half-words are converted in place and the rest is untouched |
| Network.ConvertInPlace32 | util/command.c:48-55 | the n words are converted in place and nothing else is touched |
| Network.WireRoundTrip | util/command.c:48-55 | on a little-endian and on a big-endian host the bytes sent are reassembled to the words built |
| Commands.CommandFields | src/control_interface.vhd:244-252 | read bit, address and data come back out of an encoded word |
| Commands.RegisterWords | util/command.c:67-161 | within the register numbers of the interface the encoders address the registers meant |
| Commands.AnyRegister | util/command.c:67-161 | for every 32-bit register number the shift drops what does not fit, modulo 2^32 |
| Commands.ReadStatus | util/command.c:57-70 | the status-read word is left in network order, in a new or in the given buffer, and nothing else is written |
| Commands.SendPulse | util/command.c:72-85 | the pulse word with the low 16 bits of the mask, delivered likewise |
| Commands.WriteMemory | util/command.c:87-111 | address, then two half-words for each value, delivered likewise; length 4(2n+2) |
| Commands.FillMemoryWords | util/command.c:100-108 | the loop leaves exactly the words of a block write and touches nothing else |
| Commands.ReadMemory | util/command.c:113-134 | address, count and the read command, delivered likewise |
| Commands.WriteRegister | util/command.c:136-149 | the register-write word for any address and value, delivered likewise |
| Commands.ReadRegister | util/command.c:151-164 | the register-read word, delivered likewise |
| Commands.ReadDataFifo | util/command.c:166-179 | the transfer word, delivered likewise |
| Commands.HandOver | util/sip.c:76-82 | a null buffer is replaced by the command buffer; a given one receives a copy and keeps the rest |
| HostMemory.ExecWriteMemory | util/command.c:100-108 | executing the words of a block write stores the values, moves the address behind them and touches no register, output or pulse |
| HostMemory.ExecReadMemory | util/command.c:126-130 | executing the words of a block read sends the cells in order; a count whose low 16 bits are zero reads 65536 |
| HostMemory.StoredCells | src/control_interface.vhd:345-348 | after a block write cell addr+i modulo 2^32 holds value i and every other cell is as before |
| HostMemory.ReadBackAll | src/control_interface.vhd:350-368 | reading back a stored block returns the values |
| HostMemory.WriteReachesMemory | util/command.c:87-111 | a block write of n values sent at any times, and 5n+6 clocks: the machine is at rest, the memory holds up to 2^32 values cell by cell, and registers, output and pulses are untouched, whatever the surroundings do |
| HostMemory.WriteThenRead | util/command.c:87-134 | a block write and a block read of the same n, up to 65536, sent at any times, under every back-pressure with room, and 6n+14 unstalled clocks: the host has what it wrote |
| HostMemory.WriteThenReadDeep | util/command.c:87-134 | the same with an output FIFO of n words and nothing asked of the host but time |
| HostMemory.WriteThenReadDrained | util/command.c:87-134 | the same with an output FIFO of three places and a host that reads at every clock |
| HostMemory.WriteWork | util/command.c:100-108 | what a block write costs and that it returns nothing |
| HostMemory.ReadWork | util/command.c:126-130 | what a block read costs and how many words it returns |
| HostMemory.TransferReachesHost | util/command.c:166-179 | a transfer of n, under every stall of either side, brings the host exactly the first n+1 words of the data FIFO in order |
| HostMemory.TransferWork | util/command.c:166-179 | what a transfer costs |
| HostMemory.ChunkReachesHost | util/fmc112.c:753-754 | the request that is repeated for an event brings one chunk of samples |
| Sip.PutRegs | util/sip.c:50-55 | the loop with the moving pointer leaves the words for the four slices and keeps what is before them |
| Sip.SendCommand | util/sip.c:85-113 | a 64-bit command becomes four register writes and a pulse, in a new or in the given buffer |
| Sip.RecvCommand | util/sip.c:115-139 | four status reads, delivered likewise |
| Sip.SendRecvCommand | util/sip.c:41-83 | slices, pulse, slices again and four status reads, delivered likewise |
| Sip.ExecSendCommand | util/sip.c:85-113 | the four slices stand in registers 4 to 7 before the single pulse of mask 2 |
| Sip.ExecSendRecv | util/sip.c:41-83 | executing the thirteen words sets the slices, gives one pulse, sends four replies and touches nothing else |
| Sip.ReplyRoundTrip | util/sip.c:141-154 | four big-endian reply words decode to the value joined from the four registers, and its slices are those registers |
| Sip.SlicesJoined | util/sip.c:149-152 | joining the four slices of any 64-bit value gives the value |
| Sip.CommandReply | util/sip.c:41-154 | the interpreter's replies to a command decode to the 64-bit value standing in the status registers |
| Sip.CommandOverMachine | util/sip.c:41-154 | the same over any clocking of the machine with room, with thirty unstalled clocks: registers set, pulse high for three clocks and at each of them the slices in place, memory untouched, reply decoded |
| Sip.CommandOverDeepMachine | util/sip.c:41-154 | the same with room for four replies and nothing but thirty clocks |
| Sip.SlicesBeforePulse | util/sip.c:50-60 | at every clock of any run with the words of a command, PULSE_REG is zero or the four slices are in their registers |
| Sip.WriteReg | util/sip.c:156-165 | the packed command of operation 1, sent as a 64-bit command |
| Sip.ReadReg | util/sip.c:167-175 | the packed command of operation 2, sent as a 64-bit command with reply |
| Sip.PackRoundTrip | util/sip.c:156-175 | for every opcode, address and data: the data come out of the packed command, the address exactly when it has at most 28 bits, the opcode exactly when the address adds no bit to it |
| Sip.PackedSlices | util/sip.c:156-175 | the configuration registers that carry a packed command hold the data in 4 and 5 and the address, with the opcode above it, in 6 and 7 |
| Sip.OrBits | util/sip.c:160-162 | the or of the packed fields is the or of each bit |
| Sip.ExecWriteReg | util/sip.c:156-165 | executing a register write leaves operation 1 in front of the address, and the data, in registers 4 to 7; for an address of 28 bits register 7 is 0x1000 plus its upper part; one pulse on bit 1, nothing else touched |
| Sip.ExecReadReg | util/sip.c:167-175 | executing a register read leaves operation 2 in front of the address and zeros in registers 4 and 5; four replies |
| Sip.WriteRegOverMachine | util/sip.c:156-165 | over the clocked machine, fourteen clocks behind the words: the same registers, one pulse of three clocks, and at each of them the registers in place |
| Sip.ReadRegOverMachine | util/sip.c:141-175 | over the clocked machine, with room for four replies and thirty clocks: operation 2 at each clock of the pulse, and the host decodes the value in the status registers |
| Pulse2Pulse.Synchronizer.Reset | src/pulse2pulse.vhd:81-114 | reset clears all flip-flops |
| Pulse2Pulse.Synchronizer.InProc | src/pulse2pulse.vhd:87-104 | an edge of in_clk changes the flip-flops as the input step says and none of the output side |
| Pulse2Pulse.Synchronizer.OutProc | src/pulse2pulse.vhd:115-139 | an edge of out_clk changes the flip-flops as the output step says and none of the input side |
| Pulse2Pulse.Synchronizer.BothProcs | src/pulse2pulse.vhd:79-140 | simultaneous edges: both processes see the flip-flops as they were before |
| Pulse2Pulse.RingStep | src/pulse2pulse.vhd:79-148 | each step takes a ring position to the next one, with inbusy and pulseout as the position says |
| Pulse2Pulse.RingInvariant | src/pulse2pulse.vhd:79-140 | after every interleaving of the two clocks and every pulsein the eight flip-flops are ones then zeros or zeros then ones, at one position only |
| Pulse2Pulse.BoundaryMove | src/pulse2pulse.vhd:90-94 | the boundary moves by at most one, and by two exactly when a pulse is accepted with in_reset_prev2 up |
| Pulse2Pulse.TwoPlacesReached | src/pulse2pulse.vhd:90-94 | a run from reset after which the next pulse moves the boundary by two |
| Pulse2Pulse.AcceptedOrIgnored | src/pulse2pulse.vhd:90-94 | a pulse sampled with inbusy low is taken; with inbusy high it makes no difference |
| Pulse2Pulse.PulseTiming | src/pulse2pulse.vhd:115-136 | pulseout is high exactly between the third and the fourth out_clk edge after an acceptance, and acceptances are at least eight such edges apart |
| Pulse2Pulse.PulseConservation | src/pulse2pulse.vhd:79-140 | over every run the accepted pulses are the pulses given plus at most one under way |
| Pulse2Pulse.BusyClears | src/pulse2pulse.vhd:148 | inbusy clears within fourteen rounds in each of which both clocks tick |
| TickGen.Generator.Reset | src/tickgen.vhd:72-74 | RESET clears the counter and tick_prev and leaves TICK1CLK |
| TickGen.Generator.Clock | src/tickgen.vhd:75-81 | one clock of the accumulator and the edge detector |
| TickGen.CounterLaps | src/tickgen.vhd:75-81 | after k clocks the counter is k times DIVISOR modulo 2^W, and its top bit is what rounding adds to the laps |
| TickGen.TickCount | src/tickgen.vhd:70-82 | the ticks in the first n clocks number floor(((n-1) DIVISOR + 2^(W-1)) / 2^W) |
| TickGen.FrequencyCondition | src/tickgen.vhd:13-18 | the promised frequency is generated for every n exactly when DIVISOR is at most 2^(W-1) |
| TickGen.NoAccumulatedJitter | src/tickgen.vhd:16-18 | however long the run the count is within half a period of the exact ratio |
| TickGen.TickClockCorrect | src/tickgen.vhd:70-82 | the closed form for the clock of tick j is right: j ticks have come exactly from that clock on |
| TickGen.TickSpacing | src/tickgen.vhd:16-18 | ticks i apart in number are i periods apart to within one clock |
| TickGen.NextTicks | src/tickgen.vhd:70-82 | from any clock and phase the i-th tick comes after more than i-1 periods and less than i periods and one clock |
| Uart.Port.Reset | src/uartio.vhd:86-94 | RESET makes both machines idle and leaves the two counters |
| Uart.Port.Clock | src/uartio.vhd:95-98 | the registers take what the two processes prepared from the state before the edge |
| Uart.Port.RxProcess | src/uartio.vhd:102-136 | the receiver process, branch by branch, computes the next-state function that the frame lemmas are about |
| Uart.Port.TxProcess | src/uartio.vhd:146-188 | the transmitter process, branch by branch, computes the next-state function that the frame lemmas are about |
| Uart.SendStep | src/uartio.vhd:167-185 | each tick moves a frame one tick on; after 176 ticks, ten bit times and one more, the transmitter is ready |
| Uart.ReceiveStep | src/uartio.vhd:119-133 | each tick takes the receiver one tick on if its mid-bit samples are the frame's bits; the last sample delivers the byte |
| UartLoopback.Loopback | src/uartio.vhd:84-195 | with the transmitter wired to the receiver, for any ticks and gaps, the bytes received are the bytes accepted, in order and once each, and all of them whenever TX is ready |
| UartLoopback.FrameEnds | src/uartio.vhd:119-185 | a byte under way is delivered and the transmitter ready again after at most 176 ticks |
| UartTiming.SampleInsideBit | src/uartio.vhd:121-123 | with a suitable bit period the sampling tick falls strictly inside its bit, for every phase (with src/tickgen.vhd:70-82) |
| UartTiming.FrameDecoded | src/uartio.vhd:102-136 | every frame with a suitable bit period is decoded to its byte within its ten bits, whatever the tick phase, and nothing is delivered earlier |
| UartTiming.DefaultTolerance | src/tickgen.vhd:51-55 | with the default generics every frame is decoded, for every byte, tick phase and line behind it, if and only if the bit period is 831 to 916 clocks |
| UartTiming.TimedRun | src/uartio.vhd:119-133 | whatever the line does a frame takes 153 ticks, and RX_RDY is the line at the last of them |
| SerialLine.LineDecoded | src/uartio.vhd:102-136 | every sequence of frames at a suitable bit period, with any gaps and any phase in each, is decoded in order and once each |
| SerialLine.WiresSpaced | src/uartio.vhd:106-126 | RX_RDY is never high on two clocks in a row |
| SerialLine.NumberBits | src/uartio.vhd:128-152 | bit i of the byte handed to the decoder is bit i+1 of the frame: least significant first |
| Byte2Cmd.Decoder.Reset | src/byte2cmd.vhd:90-95 | RESET leaves the byte register at FF |
| Byte2Cmd.Decoder.Clock | src/byte2cmd.vhd:96-114 | one falling edge; the field written is that of the byte taken before |
| Byte2Cmd.QuietFifo | src/byte2cmd.vhd:97-113 | for any spaced bytes a quiet decoder has written exactly the words completed by all bytes but the latest |
| Byte2Cmd.QuietAfterTwo | src/byte2cmd.vhd:98-110 | two clocks without a byte make the decoder quiet |
| Byte2Cmd.Send32Bit | util/RS232Test.tcl:6-16 | the loop sends the seven five-bit digits with their numbers, highest first |
| Byte2Cmd.WholeWord | util/RS232Test.tcl:6-16 | the seven bytes of a word complete that word, modulo 2^35, and nothing else (with src/byte2cmd.vhd:100-107) |
| Byte2Cmd.PrefixOfWords | util/RS232Test.tcl:6-16 | any prefix of the bytes of a list of words completes exactly the whole words in it (with src/byte2cmd.vhd:100-107) |
| Byte2Cmd.SerialLink | src/byte2cmd.vhd:87-115 | sender and decoder together: after any part of the bytes the FIFO holds exactly the words completed by all bytes but the latest, in order and once each (with util/RS232Test.tcl:6-16) |
| SerialLine.WordsReceived | util/RS232Test.tcl:6-16 | from the words over line, receiver and decoder to the FIFO: exactly the words completed by all bytes but the latest (with src/uartio.vhd:102-136 and src/byte2cmd.vhd:87-115) |
| SerialCommands.ArrivesMeans | src/control_interface.vhd:244-252 | the bit left above a serial word changes neither its kind, its address nor its data |
| SerialCommands.SerialEffect | util/RS232Test.tcl:6-16 | from the words over the line through the FIFO into the clocked machine: it shows what the interpreter does with the words as they were sent (with src/control_interface.vhd:191-400) |
| PacketGen.Generator.Reset | src/ten_gig_eth_packet_gen_simple.vhd:116-121 | RESET clears state, counters and strobes and leaves the byte counts |
| PacketGen.Generator.Clock | src/ten_gig_eth_packet_gen_simple.vhd:95-156 | one falling edge of the data process and the state machine |
| PacketGen.PacketProgress | src/ten_gig_eth_packet_gen_simple.vhd:137-148 | under every TREADY pattern the beats accepted are the first k of the packet after k ready clocks |
| PacketGen.WholePacket | src/ten_gig_eth_packet_gen_simple.vhd:125-155 | exactly ceil(N/8) beats are accepted, then the counter is one higher modulo 2^48 and the streamer idle |
| PacketGen.TooShort | src/ten_gig_eth_packet_gen_simple.vhd:130-135 | a length under fourteen, or no start, sends nothing |
| PacketGen.HeldStart | src/ten_gig_eth_packet_gen_simple.vhd:125-155 | a start held for no more clocks than the packet has beats, and two, sends exactly one packet under every TREADY pattern |
| PacketGen.HeldOnce | src/ten_gig_eth_packet_gen_simple.vhd:125-155 | that bound is exact: held longer, a second packet can follow |
| PacketGen.PacketBytes | src/ten_gig_eth_packet_gen_simple.vhd:97-169 | TLAST is on the last beat only, and the bytes kept are the N bytes from the RAM with the counter in bytes 42 to 47 |
| PacketGen.CounterIsNumber | src/ten_gig_eth_packet_gen_simple.vhd:99-101 | the six counter bytes, least significant first, are the counter |
| PacketGen.PacketsNumbered | src/ten_gig_eth_packet_gen_simple.vhd:95-156 | over every run from RESET the counter is the number of ended packets modulo 2^48, and every accepted beat has the RAM data or, as sixth of its packet, the number of packets before it |
| PacketGen.NextNumber | src/ten_gig_eth_packet_gen_simple.vhd:99-151 | the packet sent after k ended ones has k modulo 2^48 in bytes 42 to 47, and is then one more |
| RxParser.Parser.Reset | src/ten_gig_eth_rx_parser.vhd:137-247 | RESET clears the fields and both state machines |
| RxParser.Parser.FallingEdge | src/ten_gig_eth_rx_parser.vhd:127-271 | start detection and the record check |
| RxParser.Parser.RisingEdge | src/ten_gig_eth_rx_parser.vhd:149-240 | one beat of the parser |
| FrameParsing.DecideIsExpected | src/ten_gig_eth_rx_parser.vhd:257-266 | the check on the captured fields decides what the bytes at the RFC offsets call for: type 0806 with operation 1, or type 0800 with protocol 17, for the configured addresses |
| FrameParsing.FollowsRun | src/ten_gig_eth_rx_parser.vhd:127-273 | the parser invariant holds over every legal stream |
| FrameParsing.RecordsWritten | src/ten_gig_eth_rx_parser.vhd:127-273 | for any frames of at least six beats with gaps anywhere the records written are exactly those the frames call for, in order |
| FrameParsing.WrittenAfterTwo | src/ten_gig_eth_rx_parser.vhd:248-271 | two idle clocks after the stream every record has been written |
| FrameParsing.FrameAdds | src/ten_gig_eth_rx_parser.vhd:127-273 | a frame behind any legal stream, with gaps anywhere, adds exactly the record it calls for |
| FrameParsing.FrameNeedsSixBeats | src/ten_gig_eth_rx_parser.vhd:165-232 | a frame leaves the parser idle exactly when it has at least six beats |
| Tge.BuildArpReply | util/tge.c:41-85 | the reply's 21 words in network order, in a new or in the given buffer |
| Tge.BuildUdp | util/tge.c:125-183 | the headers' 24 words with the checksum, delivered likewise |
| Tge.PutChecksum | util/tge.c:174-179 | the loop leaves the complement of the sum folded once in word 12 and touches nothing else |
| TgeFrames.ChecksumOfSum | util/tge.c:174-179 | for any sum of ten words the checksum is right exactly when the single fold does not carry |
| TgeFrames.HeaderVerifies | util/tge.c:149-179 | the built IPv4 header adds up to all ones exactly when the fold of its sum does not carry |
| TgeFrames.HeaderCanFail | util/tge.c:178-179 | two private addresses for which the built header does not verify |
| TgeFrames.ArpIsItsBytes | util/tge.c:57-81 | the builder's words are the 42 bytes of the RFC 826 reply |
| TgeFrames.UdpIsItsBytes | util/tge.c:142-172 | the builder's words are the 48 bytes of the RFC 791 and RFC 768 headers and the dummy words, for every length modulo 2^16 |
| TgeFrames.UdpLengths | util/tge.c:150-166 | when all of a datagram fits in 65535 bytes, the IPv4 length is all but the Ethernet header and the UDP length that but the IPv4 header |
| TgeFrames.UdpRecognised | util/tge.c:125-183 | a parser takes the built datagram exactly when it is addressed to it, and recovers MAC, address and port of the sender (with src/ten_gig_eth_rx_parser.vhd:153-232) |
| TgeFrames.ExpectedIsCalled | src/ten_gig_eth_rx_parser.vhd:153-266 | what a frame calls for, from its first 42 bytes in wire order |
| TgeFrames.ArpRequestRecognised | src/ten_gig_eth_rx_parser.vhd:257-260 | a frame with the request of RFC 826 calls for the sender's record exactly when it asks for the configured address |
| TgeFrames.ArpReplyIgnored | src/ten_gig_eth_rx_parser.vhd:257-260 | a frame with the reply of RFC 826 calls for nothing |
| TgeFrames.ArpRequestReceived | src/ten_gig_eth_rx_parser.vhd:127-273 | the clocked parser, behind any legal stream and with gaps anywhere, writes the record of who asked exactly when its address was asked for |
| TgeSend.CastBytes | util/tge.c:101 | reading the frame buffer as 32-bit words keeps wire order on a little-endian host and reverses groups of four on a big-endian one |
| TgeSend.StoredFrameByte | util/tge.c:101 | each byte of a stored frame comes out of the streamer at its place, except the counter bytes (with src/ten_gig_eth_packet_gen_simple.vhd:84-103) |
| TgeSend.SendFrame | util/tge.c:97-119 | the common part of the senders: memory words, length and pulse in one buffer, handed over or copied |
| TgeSend.CmdSendArpReply | util/tge.c:87-120 | the whole command buffer of an ARP reply, 104 bytes |
| TgeSend.CmdSendUdp | util/tge.c:185-219 | the whole command buffer of a datagram header, 112 bytes, for every length, which is cast to 32 bits |
| TgeEndToEnd.ExecSend | util/tge.c:100-110 | executing the words first stores the frame and sets register 0, and the last word alone gives the pulse |
| TgeEndToEnd.SendReachesRam | util/tge.c:97-119 | a frame of n words sent at any times, and 5n+12 clocks: frame and length are in place, one pulse of three clocks has been given, and at each of its clocks frame and length were there already (with src/control_interface.vhd:301-333) |
| TgeEndToEnd.FrameAtPulse | util/tge.c:100-110 | at every clock of any run with the words of a send, PULSE_REG is zero or the whole frame and its length are in place |
| Board.MachineRuns | src/top.vhd:759-785 | the control interface on the board runs as it does alone |
| Board.StreamSeen | src/top.vhd:858-902 | a streamer whose start, length and RAM are those of the machine at each of its ticks waits until the start, and from then on runs as on one RAM with one start of six ticks |
| Board.PacketSent | src/top.vhd:858-902 | one start sends exactly one packet, of the length and from the memory that stand there with the start |
| Board.NoStartNoPacket | src/top.vhd:902 | while bit 0 of PULSE_REG stays low the streamer sends nothing, whatever the other bits do |
| Board.BoardNumbers | src/ten_gig_eth_packet_gen_simple.vhd:95-156 | on a board, whatever it does and whatever goes into the RAM, from RESET on every packet carries the number of those before it modulo 2^48 |
| TgeEndToEnd.SendSeen | util/tge.c:97-119 | the streamer of a board sees a send as one start, with the frame in memory and its length in the register at every tick from the start on |
| TgeEndToEnd.ArpBytesEmitted | util/tge.c:87-120 | the streamer emits the 42 bytes of the reply exactly when the host is little-endian, whatever its packet counter (with src/ten_gig_eth_packet_gen_simple.vhd:97-103) |
| TgeEndToEnd.OnePacketFrom25 | src/top.vhd:902 | a pulse of six ticks sends one packet exactly from 25 bytes on |
| TgeEndToEnd.ArpReplySent | util/tge.c:41-120 | from the command words, sent to a board at any times, with machine and streamer clocked together and any TREADY pattern: exactly the RFC 826 reply is accepted, as one packet (with src/top.vhd:858-902) |
| TgeEndToEnd.CommandStartsNothing | util/sip.c:41-83 | the words of a 64-bit command put no packet on the stream of a board (with src/top.vhd:902) |
| TgeEndToEnd.StreamedLengths | util/tge.c:150-166 | the length fields of a streamed datagram are those of the bytes streamed, less 14, and less 20 more |
| TgeEndToEnd.CounterWordIsNumber | src/ten_gig_eth_rx_parser.vhd:225 | the command of a datagram's record, as a number, is the counter of the sending streamer modulo 2^32 |
| TgeEndToEnd.RecordNumber | src/ten_gig_eth_packet_gen_simple.vhd:99-151 | so it is how many packets that streamer has ended before, modulo 2^32 |
| TgeEndToEnd.UdpFrame | util/tge.c:125-183 | the streamed datagram calls for a record exactly when addressed to the parser, with the packet counter as its command |
| TgeEndToEnd.UdpReceived | util/tge.c:125-219 | from the command words over machine and streamer of one board, clocked together, and a stream that carries the accepted beats with any gaps, to the clocked parser of another board: it writes the sender record exactly when the datagram is addressed to it (with src/ten_gig_eth_packet_gen_simple.vhd:95-169 and src/ten_gig_eth_rx_parser.vhd:127-273) |
| ChannelAvg.Averager.Reset | src/channel_avg.vhd:81-102 | RESET clears the synchroniser, the sums and the counter |
| ChannelAvg.Averager.FallingEdge | src/channel_avg.vhd:67-75 | the samples are registered |
| ChannelAvg.Averager.Accumulate | src/channel_avg.vhd:107-113 | the loop loads every channel at count one and otherwise adds modulo 2^32 |
| ChannelAvg.Averager.RisingEdge | src/channel_avg.vhd:78-122 | one rising edge of synchroniser, sums, counter and OUTVALID |
| ChannelAvg.Averages | src/channel_avg.vhd:103-127 | from a loading clock and until a trigger OUTVALID rises with every 2^n-th sample, and each channel is then the floor of the average of its last 2^n samples |
| ChannelAvg.NoOverflow | src/channel_avg.vhd:107-113 | the 32-bit sum of up to 2^15 samples does not wrap |
| ChannelAvg.FirstClockAfterReset | src/channel_avg.vhd:98-121 | the first sample after RESET is dropped and the next clock loads |
| ChannelAvg.SyncedTwoClocksLater | src/channel_avg.vhd:84-90 | a trigger counts two clocks after its rising edge and only then |
| ChannelAvg.CountsFromOffset | src/channel_avg.vhd:104-121 | after a trigger the count runs from the offset to the first number with bit n set, which alone raises OUTVALID |
| ChannelAvg.SumsAfterTrigger | src/channel_avg.vhd:107-113 | the samples in the sums up to the first OUTVALID after a trigger: those since the trigger, and with a nonzero offset also those before it since the latest load; nothing overflows |
| ChannelAvg.FirstValidAfterTrigger | src/channel_avg.vhd:104-121 | with an offset below 2^n the first OUTVALID comes on edge 2^n minus offset, and not before |
| Deinterleave.CountChannels | util/fmc112.c:866-868 | the loop counts the one bits of the mask |
| Deinterleave.ClearsOneBit | util/fmc112.c:867 | v AND v-1 is smaller than v and has exactly one bit less |
| Deinterleave.AndBits | util/fmc112.c:867 | the and of the loop is the and of each bit |
| Deinterleave.Sizes | util/fmc112.c:732-891 | an event is 8192 chunks of 65536 samples, and fills the buffer for each allowed channel count |
| Deinterleave.ChannelsMatch | util/fmc112.c:866-868 | the channels visited are as many as were counted exactly when the mask is below 2^16 |
| Deinterleave.HighMaskSelectsNothing | util/fmc112.c:866-876 | a mask with all its bits above the channels is counted in full but selects none |
| Deinterleave.PointsMatch | util/fmc112.c:891 | the stream brings each selected channel the number of points worked out from the count exactly when the mask is below 2^16; otherwise points of two channels meet in one cell |
| Deinterleave.FillChunk | util/fmc112.c:821-834 | the loops over a chunk put each sample in its own cell, in bounds, and leave all other cells alone |
| Deinterleave.ReadSave | util/fmc112.c:756-835 | after all chunks every sample of every chunk is at its place |
| Deinterleave.StreamOrder | util/fmc112.c:821-834 | after every number of chunks sample k of the stream is point k div m of channel k mod m |
| Deinterleave.CellInBounds | util/fmc112.c:827 | every cell used lies in the buffer |
| Deinterleave.CellInjective | util/fmc112.c:827 | different samples have different cells |
| Deinterleave.CellOnto | util/fmc112.c:827 | every cell belongs to a sample, so the stream fills the buffer exactly once |

## Left out

- FIFO and RAM internals: queues that show their first word, ignore a read when empty and a write when full, and a memory
  with one clock of latency, are the stated assumptions. A FIFO reset empties it.
- RefinementStep: assumes the memory port has a memory behind it; what top.vhd connects to MEM_DOUT is not part of this model.
- Refinement: starts with the write request of the output FIFO low, because RESET does not clear it.
- AtRestAgrees: a memory count of zero is taken as 65536, the 16-bit wrap of counterV; a VHDL simulator would stop with a
  range error there.
- WriteMemory: needs at least one value, as the source reads the first one before it looks at the count.
- ReadStatus: does not model calloc failing, in this and all other builders.
- ConvertInPlace32: htonl and htons are parameters; the two kinds of host in `Network` are the ones used for them.
- RecordsWritten: takes at least one idle clock between frames, TLAST only together with TVALID, and room in the record
  FIFO, so that TREADY stays high. The port in ARP records is the one left over from earlier frames, as in the source.
- ArpReplySent: the transmit clock ticks exactly twice for each control clock (200 MHz and 100 MHz in top.vhd), each time
  behind the control edge. top.vhd leaves TX_AXIS_TDATA of the streamer open, so that on its board the data go no further.
- UdpReceived: takes a datagram of at most 65535 bytes in all, the width of the length register. The MACs and the network
  between streamer and parser are a stream that carries the beats unchanged, as one frame, with gaps.
- CommandOverMachine: the status registers hold the reply whenever a read of them is interpreted; likewise ReadRegOverMachine.
- PacketsNumbered: the RAM stands still; `BoardNumbers` says the same of the packet numbers while it is written.
- SerialEffect: top.vhd leaves the decoder's FIFO unconnected; here it feeds the command queue.
- QuietFifo: the decoder's FIFO has no depth; src/byte2cmd.vhd looks at no full flag, so a full one would ignore words.
- StoredFrameByte: the RAM is addressed without the aliasing of memory addresses above its twelve bits.
- Averages: CONFIG is constant, and n = 0 counts as blocks of one sample; `avg_n` is declared positive, so a simulator
  would stop there.
- ReadSave: the chunks arrive completely; select, read and their errors are left out. The mask has no bit above the sixteen
  channels; `PointsMatch` says what happens otherwise.
- Sockets, signal handling, argument parsing and the ADC, DAC and clock scripts in util/fmc112.c and util/tcpio.c: input
  and output only.
- HDF5 storage and the waveform viewer: wrappers and display code.
- src/channel_sel.vhd: depends on the word order inside a FIFO that is not part of this model.
- src/clk_div.vhd, src/edge_sync.vhd, src/clk_fwd.vhd and the reset generators: small, they would only add easy members.
- src/ten_gig_eth_packet_gen.vhd: the same state machine as the simple version.
- Metastability, setup and hold times, and simulator sensitivity lists: edges are instants, and a flip-flop samples a definite value.
