# RiscForge in Dafny

This project models the RiscForge RV32I processor, its reference emulator and its
assembler, and proves how they fit together:

* the five-stage pipeline refines one-instruction-at-a-time RV32I for every program,
  every data memory and every number of clock edges, halts precisely, and takes an
  exactly known number of cycles;
* the single-cycle core, the pipeline and the byte-addressed emulator run the same
  program the same way, with the one difference in how they stop stated exactly;
* the assembler lays out, encodes and packs a program so that the emulator, started on
  the image, does line by line what the source says, and the pipeline, reset on it,
  ends where the source run ends.

## How it is organised

| file | what it holds |
|---|---|
| `Words`, `RiscvPkg` | 32-bit words as integers with explicit wrap-around, bit slices, encodings, the control bundle |
| `Decoder`, `Datapath`, `DataMemory`, `RegFile`, `PipelineRegs` | the combinational blocks as functions, the clocked ones as classes |
| `Reference` | one instruction as one step; an instruction that halts commits nothing |
| `TopPipeline` | the wires of `top_pipeline.sv`, one clock edge as `Tick`, and the class `Core` that performs it in place |
| `PipelineInvariant`, `PipelineTheorems` | what every slot holds, and the theorems over whole runs |
| `StallLaw` | the stalls read off mnemonics |
| `SingleCycle` | `top.sv` |
| `DeviceIO` | loads, stores and UART output from the architectural registers |
| `BitLevel` | logic and shifts bit by bit |
| `ByteMemory` | the word array as a little-endian byte array |
| `Formats` | field packers and immediate decoders |
| `Emulator`, `EmulatorObject` | `rv32i_emu.py` as functions, and the object that updates itself in place |
| `EmulatorLaws` | the trace, memory, CSR and trap laws of the emulator |
| `Agreement`, `Lockstep` | emulator against RTL |
| `Assembler`, `SourceMeaning` | instruction lines, their words, and what they mean |
| `EncodingLaws`, `LabelMeaning`, `DataLines` | what is accepted, what labels reach, what data lines hold |
| `Layout`, `LayoutProofs`, `AssemblerPasses` | the two passes as functions, layout soundness, and the passes as they run |
| `Simulation` | source to image to run |
| `SourceOnPipeline` | source to the pipeline |

The pipeline proof gives every slot a place in the reference run. `Occupancy` says which
slots hold an instruction and how many have retired; the architectural states before
each slot's instruction follow from those. Slots younger than the first halting
instruction are left unconstrained. Registers commit when an instruction leaves WB,
stores when it leaves MEM, so memory is one instruction ahead of the register file.

Instruction numbers count from 0. A cycle number is the number of clock edges since
reset.

## Model

| member | source | states |
|---|---|---|
| TopPipeline.Core.constructor | rtl/top_pipeline.sv:451-479 | after reset every pipeline register is a bubble, the PC is the reset PC, and nothing is halted |
| TopPipeline.Core.Clock | rtl/top_pipeline.sv:71-479 | one clock edge on the core's own registers and arrays gives exactly the next pipeline state, every register from the old values |
| TopPipeline.Core.ClockStages | rtl/top_pipeline.sv:94-423 | PC and IF/ID advance together and hold on a stall or halt; IF/ID clears on a redirect and ID/EX on a stall even when held |
| TopPipeline.Core.ClockHalt | rtl/top_pipeline.sv:451-479 | the shadow causes shift one stage per running edge, a stall inserts none, and the halt flag and tohost value stick |
| PipelineRegs.PcRegister.Clock | rtl/pc_register.sv:26-32 | reset wins over enable; otherwise the PC advances or holds |
| PipelineRegs.IfIdReg.Clock | rtl/if_id_reg.sv:36-51 | reset and flush leave a NOP whatever the enable; otherwise advance or hold |
| PipelineRegs.IdExReg.Clock | rtl/id_ex_reg.sv:58-81 | reset and flush leave an all-zero bubble whatever the enable; otherwise advance or hold |
| PipelineRegs.ExMemReg.Clock | rtl/ex_mem_reg.sv:46-60 | the same for EX/MEM |
| PipelineRegs.MemWbReg.Clock | rtl/mem_wb_reg.sv:41-55 | the same for MEM/WB |
| RegFile.Registers.Clock | rtl/reg_file.sv:55-63 | reset clears every register, a write changes one, x0 stays 0 |
| RegFile.ReadPortMeaning | rtl/reg_file.sv:67-83 | a write-first read returns what the register will hold after the edge, a plain read what it held before |
| DataMemory.DataMem.Clock | rtl/data_memory.sv:180-184 | one edge performs the gated store and nothing else |
| Decoder.DecodeWellFormed | rtl/decoder.sv:89-250 | for every word: loads are exactly the register writes from memory, illegal and halting words commit nothing, and every operand consumed is one the hazard table lists |
| Decoder.NopDecodes | rtl/if_id_reg.sv:34 | the NOP a redirect leaves behind writes only x0, reads only x0 and halts nothing |
| Words.WordBits | rtl/alu.sv:36-38 | and, or and exclusive or of two words act on every bit separately |
| Words.SignedReading | tools/refmodel/rv32i_emu.py:62-65 | the signed reading is the number in the signed 32-bit range that agrees modulo 2^32 |
| BitLevel.AluBits | rtl/alu.sv:36-41 | every result bit of AND, OR, XOR and the three shifts of the RTL's ALU, from the operands' bits |
| BitLevel.EmulatorBits | tools/refmodel/rv32i_emu.py:458-463 | every result bit of the emulator's and, or and xor, register and immediate, negative immediates included |
| BitLevel.MeaningBits | tools/assembler/assemble.py:543-560 | every result bit of what `and`, `or`, `xor` and their immediate forms mean in source |
| Datapath.ShiftRightArithIsFloor | rtl/alu.sv:41 | the sign-filling shift is floor division of the signed reading, which is how the emulator computes it |
| Datapath.HazardTableSound | rtl/hazard_unit.sv:40-53 | for every word, a register the table does not list cannot influence the value written back, the memory address or data, the taken decision or the target |
| PipelineTheorems.HazardsAreSources | rtl/hazard_unit.sv:40-59 | on every word the load-use and branch stalls fire exactly for the registers the ISA's operand table says it reads, and reads in decode |
| PipelineTheorems.DecodedWrites | rtl/decoder.sv:89-250 | on every word the decoder's read and write enables are exactly the ISA's loads and register writers |
| StallLaw.LineUses | rtl/hazard_unit.sv:40-53 | the registers every emitted word reads, needs in decode and writes are those its mnemonic names |
| StallLaw.LineStalls | rtl/hazard_unit.sv:55-59 | behind a load, or any producer, a line stalls if and only if its mnemonic reads the register, or needs it in decode |
| StallLaw.StallsOfLines | rtl/top_pipeline.sv:213-219 | the schedule's stall between two emitted words, read off the two mnemonics alone |
| PipelineInvariant.TickKeepsInv | rtl/top_pipeline.sv:92-464 | every clock edge keeps the invariant that ties each slot to its instruction of the reference run |
| PipelineInvariant.ExOperandFresh | rtl/forwarding_unit.sv:53-65 | with the younger producer winning and x0 never forwarded, an EX operand is the program-order value; a load's address is never taken for its data |
| PipelineInvariant.IdOperandFresh | rtl/top_pipeline.sv:201-217 | an unstalled branch or JALR in ID compares program-order values |
| PipelineInvariant.IdResolves | rtl/top_pipeline.sv:224-240 | ID redirects exactly when the reference transfers control, and to the same address |
| PipelineTheorems.Reachable | rtl/top_pipeline.sv:92-464 | the invariant holds in every cycle from reset, and no retired instruction halts |
| PipelineTheorems.PipelineRefines | rtl/top_pipeline.sv:92-464 | in every cycle registers equal the reference run after exactly the retired instructions, memory and UART after those plus the one in WB |
| PipelineTheorems.OperandsFresh | rtl/top_pipeline.sv:201-325 | operand freshness in every reachable cycle, in terms of the reference run |
| PipelineTheorems.LiveSlots | rtl/top_pipeline.sv:441-464 | a slot is live exactly when no earlier instruction of the reference run halts |
| PipelineTheorems.PreciseHalt | rtl/top_pipeline.sv:436-479 | when halted rises, registers, memory, UART, cause and tohost value are the reference's at its first halting instruction, and they never change again |
| PipelineTheorems.HaltedForever | rtl/top_pipeline.sv:467-479 | once halted, always halted, with committed state frozen although IF/ID and ID/EX may still move |
| PipelineTheorems.RetirementGap | rtl/top_pipeline.sv:213-240 | in every cycle, once an instruction has retired the next has retired within two cycles more, and two never retire in one cycle |
| PipelineTheorems.ScheduleClosedForm | rtl/top_pipeline.sv:213-240 | instruction k leaves ID in cycle 1 + k + taken transfers before it + stalls up to it, at most 1 + 2k, a stall being a dependency of the ISA's operand table on the instruction just ahead |
| PipelineTheorems.RetiresOnSchedule | rtl/top_pipeline.sv:404-436 | in every cycle, instruction k has retired if and only if more than three cycles have passed since it left ID |
| PipelineTheorems.CycleLaw | rtl/top_pipeline.sv:213-240 | with n + 1 instructions up to the first halting one, the core is halted in a cycle if and only if it is at least (n + 1) + 3 + taken transfers + dependency stalls, both counted on the reference run alone |
| PipelineTheorems.NeverHalts | rtl/top_pipeline.sv:77 | a run that never halts never stops the core |
| PipelineTheorems.NoStallAfterBubble | rtl/top_pipeline.sv:213-274 | in any state at all, a stall or a redirect is followed by a cycle without a stall |
| PipelineTheorems.Throughput | rtl/top_pipeline.sv:213-274 | a run of n instructions halts within 2n + 2 cycles |
| PipelineTheorems.CorrectPathOnce | rtl/top_pipeline.sv:79-124 | the instructions leaving ID are the reference run's sequence, each once and in order, up to the first halting one, each present exactly from its scheduled cycle |
| SingleCycle.Top.constructor | rtl/top.sv:75-81 | after reset the core is running at the reset PC with cleared registers |
| SingleCycle.Top.Clock | rtl/top.sv:68-243 | one edge on the core's own state gives exactly the next single-cycle state and reports its cause |
| SingleCycle.CycleIsStep | rtl/top.sv:83-198 | a cycle that does not halt is exactly one reference step; the ALU doubles as the target adder |
| SingleCycle.SingleCycleRefines | rtl/top.sv:83-241 | cycle n holds the reference state before instruction n, up to the first halting one |
| SingleCycle.HaltingCycle | rtl/top.sv:174-185 | in the halting cycle memory and UART are left alone, a misaligned load leaves its loaded value in rd, any other halting instruction leaves every register, and registers keep their values if and only if it is not a misaligned load that changes one |
| SingleCycle.MisalignedLoadWrites | rtl/top.sv:185 | a concrete misaligned load that changes a register in its halting cycle |
| SingleCycle.StoppedStays | rtl/top.sv:210-233 | after the halting cycle nothing moves and the cause reads as none |
| SingleCycle.CoresAgree | rtl/top.sv:210-243 | in the cycle it reaches the halting instruction the single-cycle core holds the pipeline's final committed state and sees the same cause |
| SingleCycle.CoresEnd | rtl/top.sv:174-241 | in every cycle after that the single-cycle core is stopped with the pipeline's final memory and UART, and with its final registers if and only if the halting instruction is not a misaligned load that changes one |
| ByteMemory.MisalignedMeaning | rtl/data_memory.sv:81-94 | an access is misaligned exactly when its address is not a multiple of its size and is no device |
| ByteMemory.ReadIsLoad | rtl/data_memory.sv:108-143 | an aligned read, signed or unsigned, is the little-endian load of the addressed bytes |
| ByteMemory.WriteIsStore | rtl/data_memory.sv:159-184 | a byte-lane read-modify-write is a byte store; misaligned and device stores leave every byte alone |
| ByteMemory.MemoryRefines | rtl/data_memory.sv:65-184 | over any sequence of stores and aligned loads the word array returns and ends with what a byte array does |
| ByteMemory.EffectiveWraps | rtl/data_memory.sv:70-73 | addresses wrap at the size of the array |
| DeviceIO.FetchWraps | rtl/instr_memory.sv:57-59 | a fetch at any PC reads the word its wrapped address selects |
| DeviceIO.StepSends | rtl/data_memory.sv:150-151 | an instruction sends exactly the low byte of rs2 if it is a store, of any width, at the UART address, and nothing otherwise |
| DeviceIO.StepStores | rtl/data_memory.sv:180-184 | from the architectural registers: a committing store off the UART writes the low bytes of rs2 at its wrapped address, and nothing else writes memory |
| DeviceIO.DeviceLoads | rtl/data_memory.sv:125-129 | a load at either device address leaves zero in rd and changes nothing else |
| DeviceIO.HostStores | rtl/top.sv:226-228 | a store halts the core for the host if and only if it addresses tohost |
| DeviceIO.RunSends | rtl/data_memory.sv:147-152 | over any run the bytes sent are those of its UART stores, in order |
| DeviceIO.CoresSend | rtl/top_pipeline.sv:365-384 | in every cycle the pipeline, and up to the halt the single-cycle core, has sent exactly that sequence |
| Formats.RTypeDecodes | tools/assembler/assemble.py:171-179 | every field packed into an R-type word is recovered |
| Formats.ITypeDecodes | tools/assembler/assemble.py:182-190 | the fields and every signed 12-bit immediate are recovered |
| Formats.STypeDecodes | tools/assembler/assemble.py:193-203 | the same through the split store immediate |
| Formats.BTypeDecodes | tools/assembler/assemble.py:206-228 | a branch offset comes back with bit 0 cleared, so exactly the even ones survive |
| Formats.UTypeDecodes | tools/assembler/assemble.py:231-233 | the upper twenty bits are recovered |
| Formats.JTypeDecodes | tools/assembler/assemble.py:236-256 | a jump offset comes back with bit 0 cleared, so exactly the even ones survive |
| Formats.ImmediatesAgree | rtl/imm_gen.sv:33-86 | on every word, the RTL's immediate is the emulator's for its format modulo 2^32, and zero where the format has none |
| EmulatorObject.RV32I.constructor | tools/refmodel/rv32i_emu.py:174-201 | the initial state |
| EmulatorObject.RV32I.LoadProgram | tools/refmodel/rv32i_emu.py:210-221 | bytes land at their base and nowhere else, or nothing changes when the base is below memory or they do not fit |
| EmulatorObject.RV32I.Fetch | tools/refmodel/rv32i_emu.py:223-227 | a fetch checks alignment, then range, then reads four bytes |
| EmulatorObject.RV32I.LoadFrom | tools/refmodel/rv32i_emu.py:229-240 | a load checks alignment, then range, then reads and extends |
| EmulatorObject.RV32I.Wr | tools/refmodel/rv32i_emu.py:263-265 | a register write wraps to 32 bits and never touches x0 |
| EmulatorObject.RV32I.StoreTo | tools/refmodel/rv32i_emu.py:242-257 | the host address is intercepted first; a misaligned or out-of-range store raises and changes nothing |
| EmulatorObject.RV32I.DoSystem | tools/refmodel/rv32i_emu.py:371-426 | the SYSTEM group in place, CSR writes suppressed for a zero source |
| EmulatorObject.RV32I.Dispatch | tools/refmodel/rv32i_emu.py:276-429 | the opcode dispatch in place; a raised trap leaves every field as it was |
| EmulatorObject.RV32I.Step | tools/refmodel/rv32i_emu.py:268-449 | one step in place; a halted CPU refuses, and a step that raises changes nothing |
| EmulatorObject.RV32I.Run | tools/refmodel/rv32i_emu.py:518-524 | the run loop ends in the state, and for the reason, of the recursive run |
| Emulator.StepReplays | tools/refmodel/rv32i_emu.py:431-449 | a step's recorded register and memory writes are its whole effect on them |
| Emulator.TraceIsComplete | tools/refmodel/rv32i_emu.py:268-449 | over any run, however it ends, replaying the trace (host stores excepted) gives the final registers and memory |
| EmulatorLaws.TraceNames | tools/refmodel/rv32i_emu.py:272-274 | a trace entry names the step's own PC and word, and records a register or a store exactly when there is one, with its value, address and size |
| EmulatorLaws.TracePath | tools/refmodel/rv32i_emu.py:518-521 | entry k of a run's trace is the instruction executed from the state after k steps |
| EmulatorLaws.StoreThenLoad | tools/refmodel/rv32i_emu.py:229-257 | a load right after a store of its address and size returns the stored value, cut to the size |
| EmulatorLaws.StoreElsewhere | tools/refmodel/rv32i_emu.py:229-257 | a load that shares no byte with the store returns what it did before |
| EmulatorLaws.CsrInstructions | tools/refmodel/rv32i_emu.py:403-426 | the CSR instructions return the old value and write, set or clear bit by bit, a zero source setting and clearing nothing |
| EmulatorLaws.TrapAndReturn | tools/refmodel/rv32i_emu.py:505-516 | a trapped ECALL or EBREAK saves PC and cause, goes to the trap vector, and MRET comes back |
| Agreement.AluAgrees | tools/refmodel/rv32i_emu.py:451-503 | on agreed words the emulator's and the RTL's ALU compute the same value |
| Agreement.FetchAgrees | rtl/instr_memory.sv:57-59 | an aligned fetch inside the code reads the same word from both memories |
| Agreement.StepAgrees | tools/refmodel/rv32i_emu.py:268-449 | one in-bounds step: same registers, memory and PC, or the same halt |
| Agreement.RunsAgree | tools/refmodel/rv32i_emu.py:518-524 | an in-bounds emulator run of any number of steps before the first halting instruction is still going, with the reference registers, memory and PC |
| Agreement.HaltsAgree | tools/refmodel/rv32i_emu.py:518-524 | at the first halting instruction the emulator's run ends too, with the reference registers and memory, for the same reason and after exactly that many steps |
| Agreement.DisagreedWords | tools/refmodel/rv32i_emu.py:388-426 | on every other word what each does, and that they commit the same if and only if the word is an MRET with mepc at the next instruction |
| Lockstep.PipelineMatchesEmulator | tb/cpi/test_cpi.py:97-100 | when the pipeline reports halted, the emulator's run from the same start ends with the same registers and memory, for the reported cause, after as many steps as the pipeline retired instructions |
| Lockstep.EcallProgram | rtl/top_pipeline.sv:174-184 | a lone ECALL meets every assumption of the lockstep theorem, and the pipeline reports halted exactly from the fourth clock edge on |
| Assembler.EncodedSize | tools/assembler/assemble.py:418-431 | pass 2 emits exactly the words pass 1 reserved |
| Assembler.ResolveExact | tools/assembler/assemble.py:487-498 | an operand resolves to its literal or to its symbol's table entry, and to an error exactly when the symbol is undefined |
| EncodingLaws.AcceptedExactly | tools/assembler/assemble.py:510-784 | which lines encode and which error every other gives: undefined symbol, odd target, or an operand its field cannot give back |
| EncodingLaws.StandardCodes | tools/assembler/assemble.py:435-484 | every line's first word carries the standard's opcode and funct3 numbers |
| EncodingLaws.StandardFunct7 | tools/assembler/assemble.py:436-447 | funct7 is 0x20 for sub, sra, srai and neg and 0 for the rest |
| EncodingLaws.FixedWords | tools/assembler/assemble.py:670-691 | fence, fence.i, ecall, ebreak, nop and ret are the standard's own words |
| SourceMeaning.FitSignedExact | tools/assembler/assemble.py:145-156 | a signed field accepts exactly the values its bit pattern sign-extends back to |
| SourceMeaning.TransfersAccepted | tools/assembler/assemble.py:595-621 | `jal` and branches accept exactly the targets whose offset the decoder recovers; `j` accepts every target in range, odd ones included |
| SourceMeaning.BranchMeans | tools/assembler/assemble.py:723-736 | a branch word does what its line says if and only if it is not taken or its target is word-aligned |
| SourceMeaning.JalMeans | tools/assembler/assemble.py:709-714 | a jump word does what its line says if and only if its target is word-aligned |
| SourceMeaning.HighLow | tools/assembler/assemble.py:749-755 | the upper twenty bits plus the sign-extended low twelve make the whole constant, with the bit-11 carry and the wrap at the top |
| SourceMeaning.LiMeans | tools/assembler/assemble.py:737-757 | for every value, the two `li` words leave it modulo 2^32 in rd |
| SourceMeaning.LaMeans | tools/assembler/assemble.py:758-770 | for every target and PC, the two `la` words leave the address in rd |
| SourceMeaning.CallMeans | tools/assembler/assemble.py:771-782 | `call` leaves pc + 8 in x1 and reaches its target if and only if that is word-aligned |
| SourceMeaning.OneWordMeans | tools/assembler/assemble.py:542-736 | every accepted one-word line with an aligned target, executed from its word, does what the line says |
| SourceMeaning.EmittedAgreed | tools/assembler/assemble.py:510-784 | every word emitted for an instruction is one the RTL and the emulator decode alike |
| Layout.Extremes | tools/assembler/assemble.py:862-863 | the packed range's bounds are keys of the image and bound every key |
| LayoutProofs.EmitsItsSize | tools/assembler/assemble.py:329-409 | every accepted line emits exactly its reserved size; `.align` reserves and emits nothing |
| LayoutProofs.LabelAddress | tools/assembler/assemble.py:352-359 | a label's symbol is its own line's address, or, on a section directive, where the section being left had got to |
| LayoutProofs.LabelsDistinct | tools/assembler/assemble.py:356-358 | an accepted program defines no label twice |
| LabelMeaning.LabelValue | tools/assembler/assemble.py:487-494 | a symbol operand denotes the address of the line that carries its label |
| LabelMeaning.TransferReachesLine | tools/assembler/assemble.py:594-621 | a taken branch or jump to a label, executed from its word, goes to the line that carries the label, an untaken one to the next word |
| LabelMeaning.CallReachesLine | tools/assembler/assemble.py:771-782 | `call` to a label goes to its line and links past itself |
| LabelMeaning.LaLeavesAddress | tools/assembler/assemble.py:758-770 | `la` of a label leaves its line's address in rd and touches no other register |
| LabelMeaning.LiLeavesLiteral | tools/assembler/assemble.py:737-757 | `li` of a literal leaves it modulo 2^32 in rd and touches no other register |
| LayoutProofs.SectionOrdered | tools/assembler/assemble.py:347-409 | within a section a later line starts where the earlier ended or above |
| LayoutProofs.LineInSection | tools/assembler/assemble.py:347-409 | text lines lie between the text base and the end of text, data lines above the data base |
| LayoutProofs.SizingPredicts | tools/assembler/assemble.py:803-830 | for a fitting text base, the sizing pass predicts where pass 1's text ends |
| LayoutProofs.TextBelowData | tools/assembler/assemble.py:832-835 | with the default data base and a fitting text base all of text lies below data |
| LayoutProofs.BuildIsApart | tools/assembler/assemble.py:789-835 | then no two lines' ranges share an address |
| LayoutProofs.UnfitBaseOverlaps | tools/assembler/assemble.py:815-820 | for every text base that is not a multiple of 2^e, a concrete program aligning to 2^e lands on its own data |
| LayoutProofs.BaseFitsExactly | tools/assembler/assemble.py:815-835 | with the default data base, a text base keeps every accepted program that aligns to at most 2^e apart if and only if it is a multiple of 2^e |
| LayoutProofs.WrittenOnce | tools/assembler/assemble.py:837-857 | no byte a line emits has been written before, so each is written at most once |
| LayoutProofs.ImageKeys | tools/assembler/assemble.py:837-857 | the image holds exactly the addresses some line covers |
| LayoutProofs.ImageHolds | tools/assembler/assemble.py:837-857 | the finished image holds every line's bytes at its addresses |
| LayoutProofs.PackReadsBack | tools/assembler/assemble.py:862-871 | the words read little-endian are the image, with zeros where nothing was written, and cover all of it |
| LayoutProofs.LayoutSound | tools/assembler/assemble.py:789-871 | when the ranges lie apart, the returned words, read from the image's origin, give every line's bytes at its addresses and zero elsewhere |
| DataLines.WordLineHolds | tools/assembler/assemble.py:529-534 | value j of a `.word` line, a literal or a defined symbol, is read little-endian from the returned words at the line's address plus 4j |
| DataLines.ByteLineHolds | tools/assembler/assemble.py:535-540 | value j of a `.byte` line, modulo 256, is the byte of the returned words at the line's address plus j |
| DataLines.InstructionLineHolds | tools/assembler/assemble.py:854-857 | word j of an instruction line is read from the returned words at the line's address plus 4j |
| DataLines.PackedTightly | tools/assembler/assemble.py:859-864 | the first and the last returned word each hold a written byte, and an empty image gives none |
| LayoutProofs.OriginIsBase | tools/assembler/assemble.py:792-795 | with the default data base and a fitting text base that is a word address, the words of every program that emits anything start at the text base |
| LayoutProofs.UnfitBaseMoves | tools/assembler/assemble.py:792-795 | for every other text base a concrete accepted program whose words start elsewhere |
| LayoutProofs.OriginIsBaseExactly | tools/assembler/assemble.py:792-795 | every accepted program that aligns to at most 2^e and emits anything is packed from its text base if and only if that is a multiple of 4 and of 2^e |
| AssemblerPasses.PlaceLine | tools/assembler/assemble.py:347-409 | one line of pass 1, annotating the line in place, with its errors |
| AssemblerPasses.Pass1 | tools/assembler/assemble.py:329-409 | the loop annotates every line as specified and returns the symbol table, or the first error |
| AssemblerPasses.SizingPass | tools/assembler/assemble.py:803-830 | the sizing loop returns the specified text size or its error |
| AssemblerPasses.ByteImage.EmitWord | tools/assembler/assemble.py:874-879 | a word goes in as four bytes, least significant first, and nothing else changes |
| AssemblerPasses.EmitLine | tools/assembler/assemble.py:840-857 | one line of pass 2 writes exactly its bytes |
| AssemblerPasses.EmitPass | tools/assembler/assemble.py:837-857 | the loop fills the dictionary as specified, or stops at the first error |
| AssemblerPasses.PackWords | tools/assembler/assemble.py:859-871 | the packing loop returns the specified words, none for an empty image |
| AssemblerPasses.Assemble | tools/assembler/assemble.py:789-871 | the whole assembler returns the specified words or the specified error |
| Simulation.LineSimulated | tools/assembler/assemble.py:510-784 | at a line, the running emulator takes the line's one step in one or two of its own, or raises the line's own trap |
| Simulation.LineKeeps | tools/assembler/assemble.py:510-784 | a line that stores clear of code keeps the image loaded and the PC aligned |
| Simulation.SourceSimulated | tools/assembler/assemble.py:510-871 | given the steps the source run counts, the emulator ends in the source run's state for the same reason |
| Simulation.BuildAccepts | tools/assembler/assemble.py:840-843 | in an accepted assembly every instruction line encodes |
| Simulation.ImageLoads | tools/refmodel/rv32i_emu.py:210-221 | loading the packed words at the image's origin, which OriginIsBase places, puts every instruction line's bytes in place |
| Simulation.ImageRuns | tools/assembler/assemble.py:789-871 | for any bases that keep the lines apart: with the words loaded at the image's origin, and nothing storing into code, the emulator does what the source says and stops as it stops |
| Simulation.AssembledRuns | tools/assembler/assemble.py:789-871 | the same with the default data base and the words loaded at the text base, where the assembler documents them |
| SourceOnPipeline.CleanInBounds | tools/refmodel/rv32i_emu.py:205-208 | an emulator step that raises nothing and stores into no code word is one the emulator and the RTL take alike |
| SourceOnPipeline.CleanStep | tools/refmodel/rv32i_emu.py:268-449 | such a step leaves the reference and the emulator running on in step, or both stopped for the same reason |
| SourceOnPipeline.LineOnRtl | tools/assembler/assemble.py:510-784 | a source line is one or two reference instructions ending in the line's state, or a stop for the line's reason |
| SourceOnPipeline.LinesOnRtl | tools/assembler/assemble.py:510-871 | a source run that halts names, by its step count, the first halting instruction of the reference run, with its registers and memory |
| SourceOnPipeline.ImageIsCode | rtl/instr_memory.sv:57-59 | with the words in both memories at the text base, every instruction line is fetched alike from both |
| SourceOnPipeline.SourceRunsOnPipeline | rtl/top_pipeline.sv:92-479 | assemble, load both memories, reset: if the source run halts, storing into no code, the pipeline is halted in a cycle if and only if it is at least the source run's instructions + 3 + taken transfers + operand stalls, and then holds the source run's registers and memory for its reason |

## Where the code and its comments differ

* The header of `rtl/top_pipeline.sv:9-22` describes an earlier pipeline without hazard
  handling and with branches resolved later. The model follows the code: branches
  resolve in ID, and forwarding and both stalls are present.
* `j`, `beqz` and `bnez` do not make the odd-offset check of `jal` and `beq`; the lemmas
  above say exactly when such a line still does what it says.
* The default data base is computed by a pass that aligns relative to zero while pass 1
  aligns absolute addresses; `BaseFitsExactly` gives the exact condition.

* `assemble` documents its words as indexed from `text_base`
  (`tools/assembler/assemble.py:792-795`), but packing starts at the lowest written
  byte, rounded down: with text base 4 and `.align 4` before the first instruction the
  words start at 16. `OriginIsBaseExactly` gives the exact condition.

## Modelling choices

* Words are integers from 0 to 2^32 - 1; every wrap-around is written out. Shifts and
  masks by constants are divisions and remainders, and the `|` of disjoint fields is a
  sum. Python's bit operations on a negative immediate are those on its low 32 bits.
* Memory depths are arbitrary positive numbers and an index wraps modulo the depth, which
  for the powers of two the RTL needs is dropping the high address bits.
* The tohost and UART addresses are parameters and differ from each other.
* The UART has no state in the RTL; an observer that records every byte sent stands for
  the strobe and data outputs.
* A Python exception is a value: `Raised` for an emulator trap, `Err` for an assembler
  error. The dictionary of the image is a map with its keys in the order first written.
* Lines reach the assembler parsed: a label, and a directive or instruction with register
  numbers and operands that are literals or symbols.
* The emulator's address space ends at 2^32 in the simulation theorems.

## Left out

- Comment, label, register, literal and operand-count parsing, error messages and the command line: the model starts from parsed lines.
- A negative `.align` argument in the sizing pass: Python raises its own error there, which the model reports as a bad alignment.
- `$readmemh` and plusargs: memories start with arbitrary contents; instruction memory is never written.
- A reset in the middle of a run: every run starts just after reset, although the register classes do model the reset input.
- `rtl/counter.sv`, and the planned branch predictor and instruction cache: trivial or absent.
- ELF loading, the riscv-tests runner, benches, build scripts and `scripts/encoding_check.py`: tooling around the logic.
- Gate-level timing and unknown values: two-valued, cycle by cycle.
- CSR, MRET and WFI handling is modelled in the emulator but has no counterpart in the RTL; agreement is stated for `trap_on_ecall` off.
- SourceOnPipeline.SourceRunsOnPipeline: assumes both device addresses above data memory, as the shipped ones are, and speaks of source runs that halt; a run that faults stops the emulator, while the RTL aliases the address and goes on.
- Agreement.RunsAgree: assumes aligned in-range accesses, no store into code and no device loads, because outside those the two memories differ by design (the RTL aliases, the emulator traps).
- Simulation.SourceSimulated: a run that leaves the program's instruction lines is followed only up to that point.
