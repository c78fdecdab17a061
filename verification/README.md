# uCsim with the CC2530 peripherals: a verified model

This project models the parts of uCsim, and of the CC2530 peripherals added to it, whose behaviour is
hardest to see by reading them, and proves what they are for. Run `dafny verify dfyconfig.toml` here.

| files | what they model |
|---|---|
| `CmdTables`, `CmdExpr`, `CmdParser`, `CmdDriver` | the console's expression parser: packed tables, grammar, automaton, and the driver with its two growing stacks |
| `CmdLaws` | the operators as arithmetic on integers |
| `CmdRejected`, `CmdAssigned` | what an input that is no expression has printed and stored by the time it is rejected |
| `Ptt`, `PttLaws` | consoles and detached simulation threads under two mutexes, as a step system |
| `Timer`, `TimerLaws` | the counting modes of timers 1 and 3 |
| `TimerCountdown`, `TimerModulo`, `TimerFree`, `TimerTurns`, `TimerDown`, `TimerUpDown`, `TimerPeak` | the countdown to the next compare value: which ticks run CaptureCompare, mode by mode |
| `TimerEvery`, `TimerAlikeModulo`, `TimerAlike` | the countdown against a timer that passes over all channels on every tick |
| `TimerPins`, `TimerWaves` | what each action does to its pin, and the waves this makes over whole runs |
| `MacTimer`, `MacFlags` | the MAC timer's counter, its three-byte overflow counter and its event flags |
| `Dma`, `DmaLaws`, `DmaLoad` | five DMA channel state machines over one memory, and their configuration bytes |
| `Hc08`, `Hc08Programs`, `Hc08Placement`, `Hc08Multiply`, `Hc08Product`, `Hc08Flags`, `Hc08Stack`, `Hc08Machine` | HC08 byte arithmetic and stack instructions, programs made of them, and the processor object running these |
| `PointerList`, `SortedList`, `Options`, `OptionLaws` | the growing pointer array, the sorted list, the option registry and the references to options |
| `Argz`, `ArgzLaws`, `SearchPath`, `PathText` | argz vectors and the library search path kept in one |
| `Radio` | the radio's three views of its source address table |
| `Flash`, `FlashDevice`, `FlashLaws` | the flash controller's byte assembly, write counts and erases |
| `Arith` | division facts used by several modules |

Each object that the code updates in place is a class here. Its methods are proved against functions on
values (`State() == Tick(old(State()))`), and the laws are proved about those functions, for every input
and every run. Interrupt requests, partner notifications and messages are recorded in the state.

## Where the code and its comments or its purpose part

The model follows the code. Each point names the lemmas that state it with its exact condition:

- A zero divisor prints a message and leaves the dividend as the result (`CmdExpr.ReportsZeroDivisors`,
  `ZeroDivisorLeavesDividend`, `CmdLaws.ValueOfDivision`).
- An input that is rejected has been evaluated as far as it was read. It is read exactly as far as it is
  the start of an expression. A finished expression followed by a stray token is printed before the error
  is reported, and assignments with a finished right-hand side are performed (`CmdRejected.ConsumedIff`,
  `RejectedPrintsIff`, `CmdAssigned.PerformedIffFinished`, `RejectedStoresIff`). Error recovery never
  resumes (`CmdTables.ErrorTokenNeverShifted`).
- The step count of a simulation thread has no effect, `r` can pile up threads, and "it stopped" is final
  only if no thread still waits for the lock (`Ptt.StepCountHasNoEffect`, `AnyNumberOfThreads`,
  `StopIsFinalIff`).
- The countdown does not serve every enabled compare value. In modulo mode it misses the value 0, and values
  below a CC0 in the upper half of the range (`TimerModulo.CountdownRefinesIff`, `UpperHalfHides`). In
  free-running mode the first channel is always served; of two channels the second one's first compare can
  be missed; of three one can be lost on every turn, the second (values 0, 3, 2) or the third
  (`TimerTurns.FirstNeverMissed`, `AllServedIff`, `ThreeServedIff`, `SecondChannelLost`, `TimerFree.PairServed`).
  In down mode a value equal to CC0 is not served (`TimerDown.DownServesExactly`, `DownRefinesIff`). In
  up/down mode channel 0 can hide channel 1 on the way up, and of three channels the lower of the two below
  CC0 is lost on the way down unless the other is next to CC0 (`TimerUpDown.UpDownRefinesIff`,
  `TimerPeak.ThreeServedIff`).
- Channels 3 and 4 of timer 1 measure upwards in every mode, so in down mode their compares are missed where
  another channel sets the countdown (`TimerDown.FarChannelMissed`). Pins compare the counter as a signed number:
  in up/down mode with a CC0 in the upper half and a compare value in the lower the peak inverts the pin
  (`TimerWaves.UpDownPulse`).
- CaptureCompare also has work at 0 and at CC0 for every channel in compare mode, which the countdown does not
  wait for. In modulo mode the work at 0 is never done, so a pin that is to be set at its compare value and
  cleared at 0 is never cleared, even where every compare value is served (`TimerAlikeModulo.SetStaysSet`,
  `PulseStaysSet`, `ModuloLooksAlikeIff`). In the other modes it is done for the few register values listed in
  `TimerAlike.FreeLooksAlikeIff`, `DownLooksAlikeIff` and `UpDownLooksAlikeIff`.
- The MAC timer compares a masked bit with 1, so only the period event ever requests the interrupt
  (`MacTimer.OnlyLowestBit`, `UpInterruptIff`, `DeltaInterruptIff`).
- The configuration of DMA channels 0 and 1 is at fixed addresses, whatever the pointers say
  (`DmaLaws.PointersObeyedIff`). A trigger that arrives while a single-mode channel moves a unit makes it
  run on like a block (`DmaLaws.OneUnitPerTriggerIff`, `SingleRunsOnIff`).
- HC08: STA clears V, so a multi-byte sum's overflow shows only before the last store
  (`Hc08Programs.SignedOverflow`, `FinalVIsClear`); SWI clears the interrupt mask, so a handler runs
  unmasked (`Hc08Stack.HandlerRunsUnmasked`).
- Lookup by name and creator ends the program when the block of that name reaches the end of the list
  without a match (`Options.LookupFindsOwned`).
- A path like `a:/:b` keeps both its colons when cleaned, because the code looks at the text before it is cleaned
  (`PathText.EmptyFieldStays`).
- The search path stores directories as given, not canonicalised; a directory with a colon does not come
  back as one, and one of slashes and colons alone fails an assertion (`SearchPath.ComeBackIff`,
  `AbortsIff`).
- The radio's views start as if memory held 0xCC (`Radio.CachesMatchMemoryIff`).
- Flash writes and page erases choose the bank differently, and an erase moves the bank later writes go to
  (`Flash.EraseReachesIff`, `WriteAfterErase`).

## Model

| member | source | states |
|---|---|---|
| CmdTables.TablesEncodeAutomaton | ucsim/cmd.src/cmdpars.cc:571-621 | for every state and lookahead the packed tables give the action of the automaton written out state by state |
| CmdTables.TablesEncodeGotos | ucsim/cmd.src/cmdpars.cc:1272-1278 | for every nonterminal and uncovered state the packed goto lookup gives the written-out successor |
| CmdTables.ErrorTokenNeverShifted | ucsim/cmd.src/cmdpars.cc:1388-1411 | no state shifts the error token, so recovery always empties the stack |
| CmdExpr.FormatGroups | ucsim/cmd.src/cmdpars.y:33-37 | the printed tree groups by the declared precedences: unary minus, then * and /, then + and -, left associative |
| CmdExpr.FormatKeepsMeaning | ucsim/cmd.src/cmdpars.y:86-104 | adding or dropping parentheses changes neither value nor effects |
| CmdExpr.FormatIsShortest | ucsim/cmd.src/cmdpars.y:33-37 | no text that groups as the same tree is shorter than the printed one |
| CmdParser.ShiftKeepsOk | ucsim/cmd.src/cmdpars.cc:1061-1081 | a shift keeps the stack invariant: each level is a state that may stand on the one below, with the tree it stands for |
| CmdParser.ReductionKeepsOk | ucsim/cmd.src/cmdpars.cc:1090-1280 | a reduction finds its whole right-hand side on the stack, keeps the invariant and makes progress |
| CmdParser.AcceptedTextIsGrouped | ucsim/cmd.src/cmdpars.cc:896-1280 | soundness: an accepted input is exactly the text of the tree it was accepted with, and that tree groups by the grammar |
| CmdParser.ReadsTree | ucsim/cmd.src/cmdpars.cc:896-1280 | from any state that expects an operand the text of a fitting tree is read as that tree, leaving the stack below alone, or the depth limit is hit |
| CmdParser.GroupedTextIsAccepted | ucsim/cmd.src/cmdpars.cc:896-1280 | completeness: every grouped text whose stack need is below the limit is accepted with its own tree; beyond it the parser reports the overflow |
| CmdParser.LanguageIsTheGrammar | ucsim/cmd.src/cmdpars.y:59-104 | a token sequence is accepted with tree e if and only if it is the text of e, e groups by the grammar and fits the stack |
| CmdExpr.ReportsZeroDivisors | ucsim/cmd.src/cmdpars.y:91-97 | evaluation prints one message for each division whose divisor evaluates to 0, and no other |
| CmdExpr.ZeroDivisorLeavesDividend | ucsim/cmd.src/cmdpars.y:91-97 | a division has the value of its dividend if and only if the divisor is 0 or the quotient is the dividend |
| CmdLaws.QuotientTruncates | ucsim/cmd.src/cmdpars.y:91-97 | the quotient q of x by y has |y*q| <= |x| < |y*q| + |y|, and is positive exactly when x and y have the same sign |
| CmdLaws.QuotientUnique | ucsim/cmd.src/cmdpars.y:91-97 | there is one such number only |
| CmdLaws.LongWraps | ucsim/cmd.src/cmdpars.y:86-97 | the 64-bit value of an integer is congruent to it modulo 2^64, and is it inside the 64-bit range |
| CmdLaws.ValueOfArithmetic | ucsim/cmd.src/cmdpars.y:86-104 | sums, differences, products and negations have the value modulo 2^64 of the integers they are about, the left operand evaluated first |
| CmdLaws.ValueOfDivision | ucsim/cmd.src/cmdpars.y:91-97 | a division of 64-bit numbers is rounded toward zero, except that the smallest number divided by -1 is itself; a zero divisor gives the dividend and one message |
| CmdLaws.ValueOfAssignment | ucsim/cmd.src/cmdpars.y:59-84 | an assignment has the value of its right-hand side, its cell then holds the 16-bit number congruent to it, and no other cell changes |
| CmdLaws.LeftBeforeRight | ucsim/cmd.src/cmdpars.y:86-104 | an operand reads what an assignment in the operand before it has stored |
| CmdLaws.EvalInRange | ucsim/cmd.src/cmdpars.y:86-104 | from 64-bit numbers and 16-bit cells every value is a 64-bit number and every cell stays a 16-bit one |
| CmdLaws.MinusSevenHalves | ucsim/cmd.src/cmdpars.cc:1166-1166 | a concrete input: - 7 / 2 is accepted and is -3 |
| CmdParser.PrintThenParse | ucsim/cmd.src/cmdpars.cc:1144-1184 | printing any tree with minimal parentheses and parsing it back gives a tree with the same value and effects |
| CmdDriver.ActionsEvaluate | ucsim/cmd.src/cmdpars.cc:1114-1192 | the action of each rule, on values that represent their trees, gives the value and the effects of the tree the reduction builds |
| CmdDriver.ReduceEvaluates | ucsim/cmd.src/cmdpars.cc:1090-1280 | a reduction keeps: the value stack, memory and output are those of evaluating the trees on the stack |
| CmdDriver.Parser.PushState | ucsim/cmd.src/cmdpars.cc:896-971 | the pushed stacks are the old ones plus one level across reallocation; it fails exactly at the depth limit |
| CmdDriver.Parser.NextAction | ucsim/cmd.src/cmdpars.cc:985-1059 | the action is the automaton's on the next token, whether or not the lookahead is read |
| CmdDriver.Parser.SemanticAction | ucsim/cmd.src/cmdpars.cc:1092-1192 | value, memory, messages and output after the switch |
| CmdDriver.Parser.PopAndPush | ucsim/cmd.src/cmdpars.cc:1230-1280 | pops the right-hand side and pushes the result and the goto state |
| CmdDriver.Parser.Recover | ucsim/cmd.src/cmdpars.cc:1282-1411 | reports the error and pops every state |
| CmdDriver.Parser.Step | ucsim/cmd.src/cmdpars.cc:896-1280 | one turn of the loop is one step of the automaton with the values of its trees, or the end of the run |
| CmdRejected.StrayIsRejected | ucsim/cmd.src/cmdpars.cc:1088-1280 | the text of an expression followed by a token that can neither go on with it nor turn its last cell into a target is rejected with that expression evaluated |
| CmdRejected.RejectedPrintsIff | ucsim/cmd.src/cmdpars.cc:1104-1112 | a rejected input prints a value, that of e, if and only if it is the text of a grouped e within the stack limit, then a token that is no operator and not an = after a cell, then anything |
| CmdRejected.ErrorNeedsNoMore | ucsim/cmd.src/cmdpars.cc:985-1081 | the run up to an error depends on nothing after the token at the error |
| CmdRejected.ConsumedIff | ucsim/cmd.src/cmdpars.cc:985-1081 | a rejected input is consumed exactly as far as it is the start of the text of some expression |
| CmdRejected.PrintedThenRejected | ucsim/cmd.src/cmdpars.cc:1104-1112 | concrete inputs: 1 2 prints 1 and is rejected; a = 1 2 stores as well |
| CmdAssigned.PerformedIffFinished | ucsim/cmd.src/cmdpars.cc:1114-1126 | a rejected input has performed the assignment at a consumed = if and only if its right-hand side is finished: an expression that the next token cannot go on with |
| CmdAssigned.RejectedStoresIff | ucsim/cmd.src/cmdpars.cc:1114-1126 | it has stored to the cells of exactly these assignments and to no other |
| CmdDriver.Parser.Parse | ucsim/cmd.src/cmdpars.cc:870-1426 | accepts with the value and effects of evaluating the accepted tree; otherwise the error code, message and effects of what had been reduced |
| Ptt.StepKeepsLocks | ucsim/ptt.cc:21-143 | each mutex is owned by exactly the thread whose program point says so |
| Ptt.StepKeepsFlag | ucsim/ptt.cc:42-61 | what a thread knows of the flag stays true while it holds the lock |
| Ptt.ReachableInv | ucsim/ptt.cc:21-143 | lock ownership and flag facts hold in every reachable state, any number of consoles and threads |
| Ptt.NoDeadlock | ucsim/ptt.cc:21-66 | no reachable state has a cycle of waits; chains of waits have at most two links |
| Ptt.SomeoneCanStep | ucsim/ptt.cc:112-143 | while anything is left to do, the application lock's owner can step, else the simulation lock's owner, else any busy thread |
| Ptt.OneSimulationThread | ucsim/ptt.cc:37-63 | at most one simulation thread is inside its stepping loop, and none while a stop command holds the simulation lock |
| Ptt.StoppedMeansStopped | ucsim/ptt.cc:129-142 | while S_cmd holds the simulation lock no simulation step happens |
| Ptt.StepCountHasNoEffect | ucsim/ptt.cc:42-61 | two runs of any length that differ in the step counts their simulation threads find agree on both locks, PC, the flag and every program point |
| Ptt.AtMostOneMoreTick | ucsim/ptt.cc:42-61 | after the flag is cleared, and until it is set again, each simulation thread does at most one more PC++ |
| Ptt.StoppingIsBounded | ucsim/ptt.cc:37-66 | after a stop and without new commands every run is bounded, and where it rests every simulation thread has ended |
| Ptt.StopIsFinalIff | ucsim/ptt.cc:129-142 | when a stop command gets the simulation lock, another step can still follow with the flag clear if and only if a spawned thread still waits for that lock |
| Ptt.RunCommand | ucsim/ptt.cc:112-127 | an r command that finds both locks free spawns one more thread and frees both |
| PttLaws.StopCommand | ucsim/ptt.cc:129-142 | from every invariant state with the application lock free and no r under way, a console whose user types S clears the flag and waits for the simulation lock; from there every run without new commands is bounded, and where it rests every simulation thread has ended and the console is back at its prompt |
| PttLaws.FlagIsLastWritten | ucsim/ptt.cc:112-142 | in every run the flag at the end is what the last r or S that passed its flag step wrote |
| PttLaws.SetCommand | ucsim/ptt.cc:82-89 | s sets the program counter to the number typed and nothing else |
| PttLaws.GetCommand | ucsim/ptt.cc:74-80 | g changes nothing |
| PttLaws.RunRefused | ucsim/ptt.cc:112-127 | r while someone holds the simulation lock changes nothing |
| PttLaws.PcCountsTicks | ucsim/ptt.cc:42-61 | in every run without an s command the program counter advances by the number of PC++s of all threads |
| PttLaws.PcCountsFromLastSet | ucsim/ptt.cc:82-89 | after the last s command of a run it is the number typed plus the PC++s since |
| PttLaws.LoopTurn | ucsim/ptt.cc:42-61 | one turn of a simulation thread adds 1 to the program counter, frees the application lock and goes round again if and only if the flag is set |
| PttLaws.QuitIsFinal | ucsim/ptt.cc:21-143 | a console whose user types q takes no further step in any run |
| Ptt.AnyNumberOfThreads | ucsim/ptt.cc:112-127 | one console can spawn any number of waiting simulation threads despite the trylock |
| Timer.TicksSplit | ucsim/s51.src/CC2530timer.cc:340-504 | counting m + n ticks in one call or in two gives the same state |
| Timer.CC2530Timer.GetNextCcEvent | ucsim/s51.src/CC2530timer1.cc:335-379 | the loop over the channels leaves the scan's countdown |
| Timer.CC2530Timer.Compare | ucsim/s51.src/CC2530timer.cc:154-289 | the pin level by action field, mode and count |
| Timer.CC2530Timer.CaptureCompare | ucsim/s51.src/CC2530timer1.cc:124-213 | pins and notices of all channels in compare mode, then a rescan |
| Timer.CC2530Timer.DoFreeRunningMode | ucsim/s51.src/CC2530timer.cc:340-366 | cycles ticks of free-running mode |
| Timer.CC2530Timer.DoModuloMode | ucsim/s51.src/CC2530timer.cc:370-410 | cycles ticks of modulo mode |
| Timer.CC2530Timer.DoUpDownMode | ucsim/s51.src/CC2530timer.cc:414-466 | cycles ticks of up/down mode |
| Timer.CC2530Timer.DoDownMode | ucsim/s51.src/CC2530timer.cc:472-504 | cycles ticks of down mode |
| Timer.CC2530Timer.Tick | ucsim/s51.src/CC2530timer.cc:54-77 | tick(c) from s system ticks runs exactly floor((s+c)/p) - floor(s/p) timer ticks of the mode |
| TimerLaws.ModuloClosedForm | ucsim/s51.src/CC2530timer.cc:370-410 | count = (c+n) mod (CC0+1), read unsigned, and one overflow per period, for every CC0 and every n |
| TimerLaws.FreeClosedForm | ucsim/s51.src/CC2530timer.cc:340-366 | free-running mode counts modulo the whole range with one overflow a turn |
| TimerLaws.DownClosedForm | ucsim/s51.src/CC2530timer.cc:472-504 | for every CC0 down mode has period CC0+1 and overflows once a period, on reaching 0 |
| TimerLaws.UpDownClosedForm | ucsim/s51.src/CC2530timer.cc:414-466 | for every CC0 but 0 a triangle wave of period 2*CC0 with one overflow per period |
| TimerLaws.UpDownAtZeroClosedForm | ucsim/s51.src/CC2530timer.cc:414-466 | with CC0 = 0 it turns where the counter wraps: a triangle wave over the whole range, with an overflow at each turn |
| TimerCountdown.OneTickShape | ucsim/s51.src/CC2530timer.cc:340-504 | one tick of any mode: the counter moves, CaptureCompare runs or not, and the countdown is scanned anew or counts down |
| TimerCountdown.RefinesIff | ucsim/s51.src/CC2530timer.cc:340-504 | CompareTick is a timer without countdown that runs CaptureCompare on exactly the ticks that reach an enabled compare value; in any mode counter, pins, notices and the record of served ticks are those of CompareTick on all ticks if and only if each tick runs CaptureCompare exactly on an enabled value |
| TimerCountdown.ServedIff | ucsim/s51.src/CC2530timer.cc:340-504 | the record of served ticks holds exactly the ticks that ran CaptureCompare |
| TimerModulo.FreshIsAheadIff | ucsim/s51.src/CC2530timer1.cc:335-379 | in modulo mode with channel 0 in compare mode a scan finds the next enabled value if and only if no value is hidden behind the signed distance to CC0 |
| TimerModulo.DueTick | ucsim/s51.src/CC2530timer.cc:374-408 | a tick keeps the countdown right and runs CaptureCompare exactly on an enabled value |
| TimerModulo.CountdownRefinesIff | ucsim/s51.src/CC2530timer.cc:370-410 | for every CC0 and all runs of modulo mode with channel 0 in compare mode CaptureCompare runs on exactly the enabled compare values (all is as with CompareTick, the record of served ticks included) if and only if no enabled value is 0 and CC0 is below half a turn, or nothing lies between 0 and CC0, or CC0 is the largest count and the deciding channel has the smallest value |
| TimerModulo.UpperHalfHides | ucsim/s51.src/CC2530timer1.cc:335-379 | a concrete input: with CC0 = 0x8000 the compare at 5 is missed |
| TimerFree.FreeRunningTick | ucsim/s51.src/CC2530timer.cc:345-364 | one compare channel: the countdown is exact or one tick early, and an early wake-up re-arms to 1 |
| TimerFree.FreeRunningNeverMisses | ucsim/s51.src/CC2530timer.cc:340-366 | over any number of wraparounds every tick that leaves the count at the compare value is served, and no tick but that one or the one before |
| TimerFree.PairServed | ucsim/s51.src/CC2530timer1.cc:335-361 | two channels, any values, any number of turns after a scan: every arrival is served but the first one at the second value, and that one is missed if and only if the first value lies behind by two ticks or more and the second comes first |
| TimerFree.SecondChannelMissed | ucsim/s51.src/CC2530timer1.cc:335-361 | a concrete missed compare |
| TimerTurns.FreshIs | ucsim/s51.src/CC2530timer1.cc:335-361 | what a scan finds in free-running mode, for any number of channels and all registers: the nearest value if the deciding channel's is less than half a turn ahead, else that channel's, past all others |
| TimerTurns.FreeServesExactly | ucsim/s51.src/CC2530timer.cc:340-366 | any number of channels, any values, any number of turns from a scan at a position of the schedule: a tick is served exactly if it reaches one of these positions, the same on every turn |
| TimerTurns.FirstNeverMissed | ucsim/s51.src/CC2530timer.cc:340-366 | from any scan, with any number of channels, every arrival at the first enabled channel's value is served, and from the first one on exactly the positions of the schedule are |
| TimerTurns.AllServedIff | ucsim/s51.src/CC2530timer.cc:340-366 | any number of channels, from a scan on an enabled value: every arrival at every enabled value, on every turn, is served if and only if each enabled value is at a position of the schedule |
| TimerTurns.ThreeServedIff | ucsim/s51.src/CC2530timer1.cc:335-361 | three fully scanned channels with different values: all are served on every turn if and only if a test on their distances from the first one holds; else exactly one is lost on every turn, the second if the third comes first, two ticks or more after the first channel's value, and the second is in the same half of the turn or last in it, and the third otherwise |
| TimerTurns.SecondChannelLost | ucsim/s51.src/CC2530timer1.cc:335-361 | concrete values 0, 3 and 2: the compare at 3, the second channel's, is lost on every turn |
| TimerTurns.ThirdChannelLost | ucsim/s51.src/CC2530timer1.cc:335-361 | three concrete values of which the third channel's is lost on every turn |
| TimerDown.DownServesExactly | ucsim/s51.src/CC2530timer3.cc:200-250 | two channels, all register values, any number of periods: which ticks of down mode are served; a value equal to CC0 is not |
| TimerDown.DownRefinesIff | ucsim/s51.src/CC2530timer3.cc:200-250 | from a reload CaptureCompare runs on exactly the enabled compare values (all is as with CompareTick, the record of served ticks included) if and only if the reload is served exactly when CC0 is an enabled value, and a countdown that runs out at 0 finds 0 enabled |
| TimerUpDown.UpDownRefinesIff | ucsim/s51.src/CC2530timer.cc:414-466 | two channels, all register values with CC0 not 0, from a scan at 0: CaptureCompare runs on exactly the enabled compare values (all is as with CompareTick, the record of served ticks included) if and only if channel 0 does not hide channel 1 on the way up and a countdown of a whole turn does not run out at an end |
| TimerPeak.PeakAlwaysServed | ucsim/s51.src/CC2530timer.cc:414-466 | up/down mode with any number of channels, timer 1's five included, and channel 0 in compare mode: every arrival at CC0 is served |
| TimerPeak.ThreeServesExactly | ucsim/s51.src/CC2530timer.cc:414-466 | timer 1's three fully scanned channels, CC0 below half a turn and above two different values: over any number of periods CaptureCompare runs at all values on the way up, but on the way down at the upper one only, and at the lower one too if the upper one is next to CC0 |
| TimerPeak.ThreeServedIff | ucsim/s51.src/CC2530timer.cc:414-466 | so every arrival at an enabled value is served if and only if one of the two values is CC0 - 1; otherwise the lower one is lost on every way down |
| TimerEvery.LooksAlikeIff | ucsim/s51.src/CC2530timer1.cc:154-172 | any mode, any channels: up to tick n counter, pins and notices are those of a timer that passes over all channels on every single tick if and only if each tick so far has run CaptureCompare or had nothing to show |
| TimerEvery.LooksAlikeIffWorkDone | ucsim/s51.src/CC2530timer1.cc:154-172 | channels with partners to notify, any mode: after n ticks the two look alike if and only if no tick so far left undone work that CaptureCompare has at its count: at 0, at CC0, or at an enabled value |
| TimerAlikeModulo.ModuloPartsAfterTop | ucsim/s51.src/CC2530timer.cc:370-410 | modulo mode, any registers with one of the first three channels in compare mode: the work at 0 is never done, and the two differ on every tick after CC0 is first left |
| TimerAlikeModulo.ModuloLooksAlikeIff | ucsim/s51.src/CC2530timer.cc:370-410 | modulo mode with channel 0 in compare mode, from a scan: the two look alike on exactly the ticks up to CC0 if and only if CC0 is less than half a turn ahead, or no other enabled value lies before it, or it is the largest count and the deciding channel hides none |
| TimerAlikeModulo.SetStaysSet | ucsim/s51.src/CC2530timer1.cc:154-172 | in modulo mode a pin that its action sets at the compare value and clears at 0 is never cleared, whatever the registers |
| TimerAlikeModulo.EveryTickClears | ucsim/s51.src/CC2530timer1.cc:154-172 | comparing on every tick clears it on every arrival at 0 |
| TimerAlikeModulo.PulseAlikeUpToTen | ucsim/s51.src/CC2530timer.cc:370-410 | concrete registers, CC0 = 10, channel 1 at 5, action 3: every compare value is served, and the two look alike up to tick 10 and on no later tick |
| TimerAlikeModulo.PulseStaysSet | ucsim/s51.src/CC2530timer.cc:370-410 | with these registers the pin is set from tick 5 on for good |
| TimerPins.ServedAtCC0 | ucsim/s51.src/CC2530timer.cc:154-187 | when a channel is served, in every mode: action 0 sets the pin at CC0, 1 clears it, 2 inverts it, 7 clears it, and elsewhere 0 to 2 leave it |
| TimerPins.ServedAtValueOrZero | ucsim/s51.src/CC2530timer.cc:188-240 | outside up/down mode action 3 sets the pin at the compare value and clears it at 0, which has precedence, and action 4 the other way round |
| TimerPins.ServedInUpDown | ucsim/s51.src/CC2530timer.cc:188-240 | in up/down mode action 3 sets the pin above the compare value and at it on the way up, and clears it otherwise; action 4 is the inverse |
| TimerPins.ServedAtValueOrCC0 | ucsim/s51.src/CC2530timer.cc:241-280 | action 5 sets the pin at the compare value and clears it at 0 in modulo mode and at CC0 in the others, action 6 the other way round; channel 0 of timer 1 has neither |
| TimerPins.UnservedPinStays | ucsim/s51.src/CC2530timer1.cc:154-172 | a tick leaves the pin of a channel it does not serve |
| TimerPins.NotifiedIff | ucsim/s51.src/CC2530timer1.cc:154-172 | a tick notifies the partners of exactly those of the first three channels that it serves |
| TimerPins.ModuloPinWave | ucsim/s51.src/CC2530timer.cc:370-410 | modulo mode with channel 0 in compare mode and CC0 not 0, any other registers, from a scan at 0: the pins with actions 0 and 1 are set or cleared from tick CC0 on, and with action 2 make a square wave of period 2 * (CC0 + 1) |
| TimerWaves.ModuloLevel | ucsim/s51.src/CC2530timer.cc:370-410 | with schedulable registers a pin that is set or cleared at its compare value keeps that level for good from the first arrival on |
| TimerWaves.FreePinWave | ucsim/s51.src/CC2530timer.cc:340-366 | free-running mode with channel 0 in compare mode, from a scan on CC0: actions 0 and 1 set or clear the pin from the first turn on, action 2 inverts it every turn |
| TimerWaves.FreePulse | ucsim/s51.src/CC2530timer.cc:340-366 | a channel with action 5 at a position of the schedule makes a pulse on every turn, from its value to CC0; action 6 the inverse |
| TimerWaves.UpDownPulse | ucsim/s51.src/CC2530timer.cc:414-466 | up/down mode, two channels none of whose arrivals is missed: with action 4 channel 1 makes a wave of period 2 * CC0, clear from its value on the way up to its value on the way down, and with action 3 the inverse; where CC0 is not the larger one as a signed number the peak inverts the pin |
| TimerDown.FarChannelMissed | ucsim/s51.src/CC2530timer1.cc:335-379 | down mode: a compare of timer 1's channel 3 or 4 before that of a channel scanned in full is missed, because these channels measure upwards in every mode |
| TimerAlike.FreeLooksAlikeIff | ucsim/s51.src/CC2530timer.cc:340-366 | free-running mode, any number of channels with partners: the two look alike for good if and only if all enabled values, 0 and CC0 are at positions of the schedule |
| TimerAlike.OnlyFirstAlikeIff | ucsim/s51.src/CC2530timer.cc:340-366 | with channel 0 alone that is if and only if CC0 is 0 or 1 |
| TimerAlike.DownLooksAlikeIff | ucsim/s51.src/CC2530timer3.cc:200-250 | down mode, two channels, from a reload, all registers: for good if and only if no channel is in compare mode, or CC0 is the largest count and channel 1's value is CC0, is 0 with channel 0 on, or is off, or CC0 is 0 and channel 1's value the largest |
| TimerAlike.UpDownLooksAlikeIff | ucsim/s51.src/CC2530timer.cc:414-466 | up/down mode, two channels, from a scan at 0, all registers with CC0 not 0: for good if and only if no channel is in compare mode, or CC0 is the largest count and channel 1 off or at an end, or both are on and channel 1's value is 0 |
| MacTimer.Timer2.OverflowCount | ucsim/s51.src/CC2530timer2.cc:458-503 | the cascaded increment, the period reset and the two overflow compares |
| MacTimer.Timer2.Compare | ucsim/s51.src/CC2530timer2.cc:506-567 | compares, period, and the flags cleared by a tick without event |
| MacTimer.Timer2.DoUpMode | ucsim/s51.src/CC2530timer2.cc:422-436 | cycles ticks up |
| MacTimer.Timer2.DoDeltaMode | ucsim/s51.src/CC2530timer2.cc:439-455 | cycles ticks of the delta mode |
| MacTimer.CascadeIncrements | ucsim/s51.src/CC2530timer2.cc:467-474 | the three bytes count as one 24-bit number |
| MacTimer.OverflowCounts | ucsim/s51.src/CC2530timer2.cc:458-486 | the overflow counter counts modulo its period, 2^24 for period 0 |
| MacTimer.UpTickCounts | ucsim/s51.src/CC2530timer2.cc:421-540 | one tick: carry from the counter into the overflow counter |
| MacTimer.UpModeCounts | ucsim/s51.src/CC2530timer2.cc:421-540 | after n ticks OVF*period + count = (start + n) mod (period*P), for every n; a period register of 0 or below stands for 2^16 |
| MacTimer.OnlyLowestBit | ucsim/s51.src/CC2530timer2.cc:476-540 | of the mask bits of the six events only the lowest, the period event's, satisfies the test |
| MacTimer.UpInterruptIff | ucsim/s51.src/CC2530timer2.cc:476-540 | in every run of up ticks the interrupt is requested if and only if it was before, or bit 0 of the mask is set and a period event has occurred |
| MacTimer.DeltaInterruptIff | ucsim/s51.src/CC2530timer2.cc:439-455 | the same for the delta mode |
| MacTimer.UpInterruptWhen | ucsim/s51.src/CC2530timer2.cc:476-540 | with the counter below a positive period that is after exactly period - count ticks |
| MacTimer.DeltaModeCounts | ucsim/s51.src/CC2530timer2.cc:439-455 | counts down to 0 and returns to up mode; a period match on the way jumps to 0 at once |
| MacFlags.UpTickFlags | ucsim/s51.src/CC2530timer2.cc:421-540 | an up tick raises exactly the flags of its events, by the numbers the two counters reach, and a tick without an event clears all flags |
| MacFlags.DeltaTickFlags | ucsim/s51.src/CC2530timer2.cc:439-455 | the same for a delta tick, whose overflow counter is incremented at the period only |
| MacFlags.OverflowEvents | ucsim/s51.src/CC2530timer2.cc:458-503 | an increment of the overflow counter reaches the next number, or 0 at its period, and raises exactly the flags of the numbers it reaches |
| Dma.DmaController.Transfer | ucsim/s51.src/CC2530DMA.cc:222-250 | one unit moved, addresses and count advanced |
| Dma.DmaController.StepChannel | ucsim/s51.src/CC2530DMA.cc:342-408 | one transition of one channel's state machine on the shared memory |
| Dma.DmaController.DoTick | ucsim/s51.src/CC2530DMA.cc:161-180 | all five channels in order |
| Dma.DmaController.WriteArm | ucsim/s51.src/CC2530DMA.cc:426-438 | arming and abort |
| Dma.DmaController.WriteRequest | ucsim/s51.src/CC2530DMA.cc:413-424 | software triggers |
| Dma.DmaController.WriteIrq | ucsim/s51.src/CC2530DMA.cc:440-447 | interrupt mask bits |
| Dma.DmaController.OnEvent | ucsim/s51.src/CC2530DMA.cc:183-218 | an event triggers the channels that listen to it |
| DmaLaws.PointersObeyedIff | ucsim/s51.src/CC2530DMA.cc:145-158 | channels 2 to 4 follow the second pointer register; all five are configured where the registers point if and only if these hold 0x80 and 0x90 |
| DmaLaws.LoadsTheSame | ucsim/s51.src/CC2530DMA.cc:255-339 | whenever a channel loads, it decodes the initial configuration, whatever the others have moved |
| DmaLaws.StepKeepsInv | ucsim/s51.src/CC2530DMA.cc:342-408 | each channel's destination holds its finished transfer overlaid by the units moved so far |
| DmaLaws.RunKeepsInv | ucsim/s51.src/CC2530DMA.cc:161-180 | the same over every schedule of ticks, arming, requests and triggers |
| DmaLaws.FinalMemory | ucsim/s51.src/CC2530DMA.cc:342-408 | when no channel is in mid-transfer every byte is that of max(1, TransferCount) units moved from s+j*SRCinc to d+j*DESTinc of the completed channels, else the initial one |
| DmaLaws.ScheduleIndependence | ucsim/s51.src/CC2530DMA.cc:161-180 | two schedules that complete the same channels leave the same memory |
| DmaLaws.MovedForgetsBase | ucsim/s51.src/CC2530DMA.cc:222-250 | a whole transfer leaves the same destination bytes whatever was there |
| DmaLaws.BlockTransferCompletes | ucsim/s51.src/CC2530DMA.cc:366-402 | a triggered block transfer moves its count of units in as many ticks and is idle and not armed one tick later |
| DmaLaws.OneUnitPerTriggerIff | ucsim/s51.src/CC2530DMA.cc:357-394 | single mode: a trigger moves one unit and the channel waits for the next one if and only if no trigger arrives between the tick that starts the unit and the tick that moves it |
| DmaLaws.SingleRunsOnIff | ucsim/s51.src/CC2530DMA.cc:366-394 | with its trigger flag set in mid-transfer a single-mode channel runs on a unit a tick like a block, with the flag clear it moves one |
| DmaLaws.NeedsRearming | ucsim/s51.src/CC2530DMA.cc:346-349 | an idle, unarmed channel does nothing under any events until it is armed |
| DmaLaws.CountWithinLength | ucsim/s51.src/CC2530DMA.cc:280-309 | TransferCount never exceeds LEN |
| DmaLoad.LoadsFields | ucsim/s51.src/CC2530DMA.cc:255-339 | for all valid settings: eight bytes laid out as source, destination, VLEN and LEN, word, mode and trigger, increment codes and mask load exactly these, with the count per VLEN and the increments per code |
| DmaLoad.FieldsHaveBytes | ucsim/s51.src/CC2530DMA.cc:255-339 | all valid settings have such bytes |
| DmaLoad.ChannelLoads | ucsim/s51.src/CC2530DMA.cc:342-357 | a loading channel takes over these fields, its addresses at the start, and waits for a trigger with its arm flag clear |
| DmaLoad.UnitCopies | ucsim/s51.src/CC2530DMA.cc:222-250 | a byte unit copies one byte, a word unit two adjacent ones, in the direction the destination moves |
| DmaLoad.UnitEnds | ucsim/s51.src/CC2530DMA.cc:366-402 | after each unit: both addresses advanced, the count down by one, and the next state by mode, trigger flag and count; a repeated channel loads anew |
| DmaLoad.BlockIsCopied | ucsim/s51.src/CC2530DMA.cc:342-408 | a channel configured by such bytes, armed, loaded and requested, copies the block byte by byte, each address by its increment, changes no other cell, and ends idle, not armed and alone in DMAIRQ |
| DmaLoad.IrqIsCompleted | ucsim/s51.src/CC2530DMA.cc:374-386 | in every run from reset DMAIRQ holds exactly the channels that have completed a transfer |
| DmaLoad.StepInterrupts | ucsim/s51.src/CC2530DMA.cc:374-386 | the step that ends a transfer, and no other, enters the channel in DMAIRQ, and raises the interrupt flag exactly with its mask bit |
| DmaLoad.ForwardedInOneTick | ucsim/s51.src/CC2530DMA.cc:161-180 | of two channels that move a byte in the same tick the higher one moves what the lower one has just put at its source |
| DmaLoad.EventSetsFlags | ucsim/s51.src/CC2530DMA.cc:413-447 | outside ticks each event sets one flag of the channels it names: DMAARM replaces the arm flags, the others only set |
| Hc08.Processor.InstLda | ucsim/hc08.src/inst.cc:163-169 | A, N, Z and V after a load |
| Hc08.Processor.InstLdx | ucsim/hc08.src/inst.cc:171-178 | X, N, Z and V after a load |
| Hc08.Processor.InstTxa | ucsim/hc08.src/inst.cc:88-105 | A takes X |
| Hc08.Processor.InstSta | ucsim/hc08.src/inst.cc:181-191 | the byte stored; V cleared |
| Hc08.Processor.InstMul | ucsim/hc08.src/inst.cc:831-840 | the sixteen-bit product in X and A; C and H cleared |
| Hc08.Processor.InstAdd | ucsim/hc08.src/inst.cc:205-219 | sum, carry, half carry and overflow |
| Hc08.Processor.InstAdc | ucsim/hc08.src/inst.cc:222-237 | sum with carry |
| Hc08.Processor.InstSub | ucsim/hc08.src/inst.cc:240-253 | difference and borrow |
| Hc08.Processor.InstSbc | ucsim/hc08.src/inst.cc:256-270 | difference with borrow |
| Hc08.Processor.InstClrh | ucsim/hc08.src/inst.cc:684-691 | H cleared |
| Hc08.Processor.InstDiv | ucsim/hc08.src/inst.cc:843-862 | quotient and remainder, or carry set and nothing changed |
| Hc08.Processor.InstPush | ucsim/hc08.src/inst.cc:758-783 | a register pushed |
| Hc08.Processor.InstPull | ucsim/hc08.src/inst.cc:758-783 | a register pulled |
| Hc08.Processor.InstJsr | ucsim/hc08.src/inst.cc:311-319 | return address pushed |
| Hc08.Processor.InstRts | ucsim/hc08.src/inst.cc:1007-1012 | return address pulled |
| Hc08.Processor.InstSwi | ucsim/hc08.src/inst.cc:1127-1138 | PC, X, A and P pushed; the mask bit cleared |
| Hc08.Processor.InstRti | ucsim/hc08.src/inst.cc:995-1004 | P, A, X and PC pulled; bits 6 and 5 of P set |
| Hc08.FlagsRoundTrip | ucsim/hc08.src/inst.cc:1127-1138 | the flags survive as the byte the stack holds |
| Hc08Flags.FlagPlaces | ucsim/hc08.src/regshc08.h:63-68 | V, H, I, N, Z and C stand at bits 7, 4, 3, 2, 1 and 0 of the byte |
| Hc08Flags.MovesDescribe | ucsim/hc08.src/inst.cc:163-191 | loads and stores: N is the sign of the byte, Z says that it is 0, V is clear, all else unchanged |
| Hc08Flags.SumsDescribe | ucsim/hc08.src/inst.cc:205-237 | sums modulo 256: N, Z, C above 255, H from the sum of the low digits above 15, V the two's complement overflow |
| Hc08Flags.DifferencesDescribe | ucsim/hc08.src/inst.cc:240-270 | differences modulo 256: N, Z, C the borrow, V the overflow, H unchanged |
| Hc08Flags.ProductDescribes | ucsim/hc08.src/inst.cc:831-840 | X and A hold the sixteen bits of the product, C and H are clear |
| Hc08Flags.QuotientDescribes | ucsim/hc08.src/inst.cc:843-862 | quotient and remainder with Z for a zero quotient, or C set and nothing else changed exactly when H is not below X |
| Hc08Flags.ClearDescribes | ucsim/hc08.src/inst.cc:684-691 | CLRH: H is 0 and N, Z and V describe it |
| Hc08Programs.OneByte | ucsim/hc08.src/inst.cc:204-270 | one ADD, ADC, SUB or SBC: result byte, carry as the next digit, V as signed overflow |
| Hc08Programs.SumIsExact | ucsim/hc08.src/inst.cc:204-270 | for every n the n-byte program's result and final carry (borrow) make the exact sum (difference) |
| Hc08Programs.SumModulo | ucsim/hc08.src/inst.cc:204-270 | the result is the sum or difference modulo 256^n and C is set exactly when the exact one does not fit |
| Hc08Programs.SignedOverflow | ucsim/hc08.src/hc08mac.h:34-41 | V before the last STA is the signed overflow of the n-byte operation |
| Hc08Programs.FinalVIsClear | ucsim/hc08.src/inst.cc:181-191 | the STA that ends the program clears V, so no overflow shows after it |
| Hc08Placement.CorrectIff | ucsim/hc08.src/inst.cc:181-270 | the n-byte program is right for every memory if and only if the destination does not start below an operand and reach into it, or a number is subtracted from itself |
| Hc08Placement.LowBytesRight | ucsim/hc08.src/inst.cc:181-270 | a right result is right in its low bytes, which the program for those bytes alone computes |
| Hc08Programs.DivisionIsExact | ucsim/hc08.src/inst.cc:843-862 | every step keeps H < X and never overflows; quotient*X + H = H0*256^n + dividend, for every n |
| Hc08Programs.LongDivision | ucsim/hc08.src/inst.cc:683-691 | CLRH and the loop give the n-byte quotient and leave the remainder in H |
| Hc08Programs.CarryReportsZeroDivisor | ucsim/hc08.src/inst.cc:843-862 | after the program C is set if and only if X is 0 |
| Hc08Placement.DividesIff | ucsim/hc08.src/inst.cc:843-862 | the long division is right for every dividend and non-zero divisor if and only if the quotient does not start inside the dividend |
| Hc08Multiply.OneByteProduct | ucsim/hc08.src/inst.cc:831-840 | LDX, LDA, MUL, ADD, STA, TXA, ADC, STA: the result digit and the new carry byte make the product plus the old carry byte |
| Hc08Multiply.ProductIsExact | ucsim/hc08.src/inst.cc:831-840 | for every n and every such placement the n-byte result and the final carry byte above it make the exact product plus the first carry byte |
| Hc08Product.ExactIff | ucsim/hc08.src/inst.cc:831-840 | that product is exact for every memory if and only if the carry byte is no byte of the result and, for more than one byte, neither the factor nor a byte of the number but the lowest, the factor no byte of the result but the highest, and the result does not start below the number and reach into it |
| Hc08Multiply.ProductModulo | ucsim/hc08.src/inst.cc:831-840 | from a zero carry byte the result is the product modulo 256^n, and the carry byte is zero if and only if the product fits |
| Hc08Machine.RunSum | ucsim/hc08.src/inst.cc:163-270 | the processor object runs the program: the sum or difference modulo 256^n in memory, C set exactly when the exact one does not fit |
| Hc08Machine.RunDivision | ucsim/hc08.src/inst.cc:683-862 | the processor object runs the long division: quotient in memory, remainder in H |
| Hc08Machine.RunProduct | ucsim/hc08.src/inst.cc:88-237 | the processor object runs the multiplication: product modulo 256^n in memory, the rest in the carry byte |
| Hc08Stack.TrapPushes | ucsim/hc08.src/inst.cc:1127-1138 | the five bytes SWI leaves |
| Hc08Stack.EndTrapPops | ucsim/hc08.src/inst.cc:995-1004 | RTI takes those five bytes back |
| Hc08Stack.StepRefines | ucsim/hc08.src/hc08mac.h:20-30 | each instruction does on memory what the bounded last-in first-out stack of frames does |
| Hc08Stack.RunRefines | ucsim/hc08.src/hc08mac.h:20-30 | every run the bounded stack allows is a run of the processor with the same registers and frames |
| Hc08Stack.NestingKeepsTheStack | ucsim/hc08.src/inst.cc:757-783 | well-nested code leaves the stack as it found it |
| Hc08Stack.SubroutineReturns | ucsim/hc08.src/inst.cc:1007-1012 | after a well-nested body RTS restores PC and SP |
| Hc08Stack.HandlerReturns | ucsim/hc08.src/inst.cc:995-1004 | RTI restores A, X, PC, SP and P with bits 0x60 set; P itself if and only if it had them set |
| Hc08Stack.HandlerRunsUnmasked | ucsim/hc08.src/inst.cc:1127-1138 | SWI clears the mask bit: a well-nested handler that does not set it runs unmasked up to its RTI, whatever the bit was, and RTI gives the caller its own bit back |
| Hc08Stack.SavedByteReturns | ucsim/hc08.src/inst.cc:757-783 | a pull gets back what the matching push saved |
| PointerList.List.constructor | ucsim/pobj.cc:268-277 | an empty list with the chosen limit |
| PointerList.List.SetLimit | ucsim/pobj.cc:641-666 | contents kept; the limit is clamped between count and the maximum |
| PointerList.LimitIsClamped | ucsim/pobj.cc:641-666 | the limit is the wanted one between the number of items and 8192 |
| PointerList.List.At | ucsim/pobj.cc:296-302 | the item, or the end of the program for a bad index |
| PointerList.List.IndexOf | ucsim/pobj.cc:543-553 | found if and only if present, at the first occurrence |
| PointerList.List.DisconnAt | ucsim/pobj.cc:328-346 | the contents without one item, or the end of the program |
| PointerList.List.Disconn | ucsim/pobj.cc:353-359 | the contents without the first occurrence, if any |
| PointerList.List.AddAt | ucsim/pobj.cc:405-426 | the item inserted, across reallocation |
| PointerList.List.Add | ucsim/pobj.cc:574-580 | the item appended |
| PointerList.List.Push | ucsim/pobj.cc:591-597 | the item put first |
| PointerList.List.Pop | ucsim/pobj.cc:508-517 | the first item taken out, null for an empty list |
| SortedList.CompareZero | ucsim/option.cc:228-238 | the key order: equal exactly for equal strings |
| SortedList.CompareIsDictionary | ucsim/option.cc:228-238 | one key is below another exactly if at the first difference it ends or has the smaller character |
| SortedList.AtMostTransitive | ucsim/option.cc:228-238 | the key order is transitive |
| SortedList.InsertionSorts | ucsim/pobj.cc:731-742 | inserting at the split keeps the list sorted, and free of duplicates if the key is new |
| SortedList.SplitFinds | ucsim/pobj.cc:749-773 | a key is in a sorted list if and only if it is at its leftmost place |
| SortedList.SortedList.Search | ucsim/pobj.cc:749-773 | the leftmost insertion point, and found if and only if the key is present, with and without duplicates |
| SortedList.SortedList.Add | ucsim/pobj.cc:731-742 | exactly one item more, left of its equals, list still sorted; nothing for a duplicate where none is allowed |
| SortedList.SortedList.IndexOf | ucsim/pobj.cc:706-725 | with duplicates the index of that very item if and only if it is there; without them the index of an item of that key |
| Options.LookupFindsNamed | ucsim/option.cc:256-263 | lookup by name gives the leftmost option of that name, null if and only if there is none |
| Options.LookupFindsOwned | ucsim/option.cc:266-301 | lookup by name and creator finds a match whenever one exists; it ends the program if and only if there is none and the last option of the list has the name |
| OptionLaws.OwnedIsFirst | ucsim/option.cc:266-301 | and the match it finds is the leftmost one |
| Options.Registry.GetNamed | ucsim/option.cc:256-263 | the method is that lookup |
| Options.Registry.GetOwned | ucsim/option.cc:266-301 | the method is that lookup, index loops and index error included |
| Options.Registry.StartOfBlock | ucsim/option.cc:273-284 | the backward loop stops at the first option of the block |
| Options.Registry.ScanBlock | ucsim/option.cc:285-300 | the forward loop, with the index error at the end of the list |
| Options.Registry.NewOption | ucsim/option.cc:242-245 | the graph with one option registered at its place |
| Options.Registry.DelOption | ucsim/option.cc:248-253 | the graph without the option, its users pointing at none |
| Options.OptRef.constructor | ucsim/option.cc:433-437 | the graph with one more reference, pointing at none |
| Options.OptRef.To | ucsim/option.cc:439-449 | the graph with a new option registered and a reference to it |
| Options.OptRef.Create | ucsim/option.cc:462-500 | the step of the graph; no object for the first and unknown kinds |
| OptionLaws.NewRefToEffect | ucsim/option.cc:439-449 | the new option is registered with value 0 and the reference as its only user; nothing else changes |
| OptionLaws.CreateEffect | ucsim/option.cc:462-500 | the reference leaves its option's users for the option made, registered with value 0 and this only user, or for none |
| Options.OptRef.Use | ucsim/option.cc:519-527 | the step of the graph |
| Options.OptRef.UseNamed | ucsim/option.cc:530-541 | the step of the graph, null when the name is unknown |
| OptionLaws.UseEffect | ucsim/option.cc:519-527 | the reference becomes the last of its option's users; nothing else changes |
| OptionLaws.UseNamedEffect | ucsim/option.cc:530-541 | the reference leaves its option for the leftmost one of the name, or for none; options, values and registry stay |
| Options.OptRef.DefaultOption | ucsim/option.cc:503-516 | the value copied, or the program ended by the lookup |
| OptionLaws.DefaultEffect | ucsim/option.cc:503-516 | when the lookup finds an option and the reference has one, that option gets the found one's value; all other values, all references, users and the registry stay, and without either nothing changes |
| Options.OptRef.Destroy | ucsim/option.cc:451-459 | the step of the graph; an owned option goes with its reference |
| OptionLaws.DestroyEffect | ucsim/option.cc:451-459 | the reference goes from its option's users; an option of its owner goes too, and all other references to that option then point at none |
| OptionLaws.DeleteEffect | ucsim/option.cc:248-253 | the option goes from the registry, its users point at none, all else stays |
| Options.RemoveClearsItsUsers | ucsim/option.cc:96-105 | after a removal the references that pointed at the option point at none, all others as before |
| Options.StepKeepsInv | ucsim/option.cc:433-547 | each operation keeps: users lists exact, no dangling reference, registry exact and sorted |
| Options.RunKeepsInv | ucsim/option.cc:433-547 | the same over every run |
| Options.NeverDangling | ucsim/option.cc:95-130 | from the empty program, in every run, a reference is in an option's users once if it points at it and not at all otherwise, and never points at a removed option |
| Argz.CreateSep | ucsim/libltdl/ltdl.c:472-524 | the buffer holds the packed string and the recorded length is the number of bytes written |
| Argz.Append | ucsim/libltdl/ltdl.c:430-461 | old bytes then new bytes, length increased by the same amount |
| Argz.Insert | ucsim/libltdl/ltdl.c:535-590 | the entry put in front of the one that holds the given byte |
| Argz.Next | ucsim/libltdl/ltdl.c:597-630 | the offset after the entry's terminator, none at the end |
| Argz.Visit | ucsim/libltdl/ltdl.c:2187-2191 | the walk reads every entry once, in order |
| Argz.Stringify | ucsim/libltdl/ltdl.c:642-658 | terminators become separators in place, but not the first and last byte |
| ArgzLaws.CreateSepKeepsFields | ucsim/libltdl/ltdl.c:472-524 | for every string the result is the vector of its non-empty fields, plus an empty one after a final delimiter |
| ArgzLaws.SplitUndoesJoin | ucsim/libltdl/ltdl.c:472-524 | splitting a joined list at the delimiter gives the list back |
| ArgzLaws.CreateSepUndoesJoin | ucsim/libltdl/ltdl.c:472-524 | argz_create_sep undoes joining for non-empty entries without the delimiter |
| ArgzLaws.StringifyJoins | ucsim/libltdl/ltdl.c:642-658 | argz_stringify of a vector is the joined string |
| ArgzLaws.EntriesOfVector | ucsim/libltdl/ltdl.c:597-630 | a walk over a vector meets exactly its entries |
| ArgzLaws.CreateSepEntries | ucsim/libltdl/ltdl.c:472-524 | no entry that comes out holds the delimiter |
| ArgzLaws.StartOfEntry | ucsim/libltdl/ltdl.c:556-559 | scanning back finds where the entries before end |
| ArgzLaws.InsertIsListInsert | ucsim/libltdl/ltdl.c:535-590 | on the list of entries an insertion is an insertion, all others unchanged |
| SearchPath.CanonicalizePath | ucsim/libltdl/ltdl.c:2061-2119 | the loop computes the canonical text |
| SearchPath.CanonicalEmptyIff | ucsim/libltdl/ltdl.c:2076-2115 | nothing is left of a path if and only if it is all slashes and colons |
| PathText.CanonicalKeepsNames | ucsim/libltdl/ltdl.c:2076-2115 | only slashes and colons are dropped, all other characters stay in order |
| PathText.CanonicalSlashes | ucsim/libltdl/ltdl.c:2076-2115 | no slash is left at the end, before another one or before a colon |
| PathText.CanonicalJoinsFields | ucsim/libltdl/ltdl.c:2076-2115 | a path without slashes becomes its non-empty fields with one colon between them |
| PathText.EmptyFieldStays | ucsim/libltdl/ltdl.c:2076-2115 | a concrete input: a:/:b keeps both colons |
| SearchPath.Extend | ucsim/libltdl/ltdl.c:3477-3505 | split, append, join: the new path text |
| SearchPath.UserPath.InsertDir | ucsim/libltdl/ltdl.c:3443-3512 | the stored path after adding a directory, or the failed assertion |
| SearchPath.ExtendBefore | ucsim/libltdl/ltdl.c:3485-3505 | split, insert, join: the new path text |
| SearchPath.UserPath.InsertSearchDir | ucsim/libltdl/ltdl.c:3532-3563 | an error for a position outside the path, otherwise the insertion |
| SearchPath.UserPath.AddSearchDir | ucsim/libltdl/ltdl.c:3515-3529 | nothing for no directory or an empty one |
| SearchPath.AddedDirsComeBack | ucsim/libltdl/ltdl.c:3443-3529 | any list of such directories without colons is stored joined and splits back into the same list |
| SearchPath.ComeBackIff | ucsim/libltdl/ltdl.c:3443-3529 | for all lists of addable directories: they come back if and only if none holds a colon |
| SearchPath.PathIsTheList | ucsim/libltdl/ltdl.c:3443-3563 | after any mix of additions and insertions of such directories the path is the joined list of directories and splits back into it |
| SearchPath.AbortsIff | ucsim/libltdl/ltdl.c:3456-3462 | the assertion on the canonical path fails exactly for directories of slashes and colons only |
| Radio.AddressTable.constructor | ucsim/s51.src/CC2530Radio.cc:286-295 | the views start as decodings of 96 bytes 0xCC |
| Radio.AddressTable.Write | ucsim/s51.src/CC2530Radio.cc:446-489 | a write keeps all three views the decodings of the same bytes |
| Radio.ExtAfter | ucsim/s51.src/CC2530Radio.cc:476-489 | the masked update replaces exactly the written byte of the extended address that holds it |
| Radio.ExtSplits | ucsim/s51.src/CC2530Radio.cc:446-489 | each half of an extended address is the PAN identifier and short address of the same bytes |
| Radio.Run | ucsim/s51.src/CC2530Radio.cc:446-489 | after any sequence of writes the 24 short addresses, 24 PAN identifiers and 12 split extended addresses are decodings of one table |
| Radio.LastWriteShows | ucsim/s51.src/CC2530Radio.cc:446-489 | after any sequence of writes each byte of the table is the last one written to its address |
| Radio.ViewsLowestFirst | ucsim/s51.src/CC2530Radio.cc:446-489 | each view has the lowest byte of its number first |
| Radio.CachesMatchMemoryIff | ucsim/s51.src/CC2530Radio.cc:286-295 | for a memory with any initial contents the views show it if and only if every byte no write touched was 0xCC |
| Flash.WordLands | ucsim/s51.src/CC2530flashCtrler.cc:239-276 | the fourth byte stores the four pending bytes, in order of arrival, at 4*(address mod 0x2000)+0..3 of the selected bank |
| Flash.NothingElseWrites | ucsim/s51.src/CC2530flashCtrler.cc:239-276 | one to three pending bytes, and all other writes but an erase, leave the flash unchanged |
| Flash.StepKeepsPending | ucsim/s51.src/CC2530flashCtrler.cc:244-256 | the register holds exactly the bytes accepted since the last whole word or reset |
| Flash.StepKeepsCounts | ucsim/s51.src/CC2530flashCtrler.cc:131-138 | each page's count stays the sum of its word counts |
| Flash.StepKeepsExplained | ucsim/s51.src/CC2530flashCtrler.cc:131-138 | each word's count is the number of its writes since its page was erased or the counts were reset |
| Flash.EveryRunIsSound | ucsim/s51.src/CC2530flashCtrler.cc:189-276 | all of that in every run |
| Flash.RunsFromResetAreSound | ucsim/s51.src/CC2530flashCtrler.cc:53-79 | so is every run after a reset, whatever came before it |
| Flash.WriteAfterErase | ucsim/s51.src/CC2530flashCtrler.cc:96-120 | a word written after an erase lands in the bank the erase chose; after writing an address register again, in the bank of the address; the two agree if and only if the page is below 16 |
| Flash.EraseReachesIff | ucsim/s51.src/CC2530flashCtrler.cc:96-120 | erasing the page of a word blanks the word if and only if the page is below 16; the others are erased in another bank |
| FlashLaws.AddressOfBoth | ucsim/s51.src/CC2530flashCtrler.cc:207-238 | in either order the two address registers make up the address, its bank, its page and its word |
| FlashLaws.AddressWritten | ucsim/s51.src/CC2530flashCtrler.cc:207-238 | a write to either register sets its half of the address and the bank, and nothing else |
| FlashLaws.ControlWritten | ucsim/s51.src/CC2530flashCtrler.cc:189-276 | bit 0 of FCTL erases the page that FADDRH selects, bit 1 alone decides whether writes are accepted |
| FlashLaws.EraseExactly | ucsim/s51.src/CC2530flashCtrler.cc:96-120 | an erase makes the 2048 bytes of its page 0xFF and its counts 0, keeps its lock bit, and leaves all other bytes and pages |
| FlashLaws.WordBytes | ucsim/s51.src/CC2530flashCtrler.cc:132-186 | the four bytes of a word stand in order at four times the address in the bank selected, and no other byte of any bank changes |
| FlashLaws.WordLocks | ucsim/s51.src/CC2530flashCtrler.cc:171-176 | a word at address w below 4 sets the lock bits of the 32 pages from 32 * (3 - w) on, bit by bit, a 0 locking; others leave all lock bits |
| FlashLaws.WordLeavesReady | ucsim/s51.src/CC2530flashCtrler.cc:178-182 | after a word the register is empty and the next one is taken at the same address |
| FlashLaws.ResetLeaves | ucsim/s51.src/CC2530flashCtrler.cc:53-79 | reset clears counts, locks and register state and leaves cells, bank and address registers |
| FlashDevice.FlashController.constructor | ucsim/s51.src/CC2530flashCtrler.cc:21-37 | reset and chip erase leave all flash 0xFF and all counts 0 |
| FlashDevice.FlashController.Reset | ucsim/s51.src/CC2530flashCtrler.cc:53-79 | counts, locks and register state cleared |
| FlashDevice.FlashController.ErasePage | ucsim/s51.src/CC2530flashCtrler.cc:96-120 | 2048 bytes of the page's bank blanked, its counts 0 |
| FlashDevice.FlashController.ChipErase | ucsim/s51.src/CC2530flashCtrler.cc:123-129 | all pages in order |
| FlashDevice.ChipEraseBlanksAll | ucsim/s51.src/CC2530flashCtrler.cc:123-129 | after it every byte of every bank is 0xFF and every count 0 |
| FlashDevice.FlashController.FlashWrite | ucsim/s51.src/CC2530flashCtrler.cc:132-186 | counts, four bytes, lock bits, register cleared |
| FlashDevice.FlashController.Write | ucsim/s51.src/CC2530flashCtrler.cc:189-276 | the step of the register machine |

## Left out

- Console, socket and file input and output, help texts, tracing, and the lexer: the parser takes tokens.
- CmdParser.LanguageIsTheGrammar: the grammar without its rules for bit operands, address-of and indexed memory operands; memory is one map of 16-bit cells, and signed overflow of `long` wraps at 64 bits.
- CmdDriver.ActionsEvaluate: without the actions of the rules for those operands (3, 10, 14 to 16, 18 to 20).
- CmdDriver.Parser.SemanticAction: without the cases of the same rules.
- CmdDriver.Parser.Parse: the code prints a `long` with `%d` (`cmdpars.cc:1116`), which shows its low 32 bits or worse, and the most negative `long` divided by -1 traps; the model records the full value and wraps the quotient.
- CmdDriver.Parser.Recover: what the driver would do after shifting the error token is not modelled, because no state shifts it.
- Ptt.SomeoneCanStep: the command `s` reads its number from the user while it holds the application lock (`ptt.cc:82-89`); the model gives it a number at once, so the lock's owner never waits for input.
- Ptt.StoppingIsBounded: for the same reason a console that waits for input inside `s` is not a state.
- Ptt: the last unlocked read of `PC` in the stop command is not a step; the dangling steps argument is an arbitrary number.
- Timer: pin events, the interrupt flag registers, channels 3 and 4 of timer 1 as the only compare channel, and register writes while counting.
- Timer.CC2530Timer.CaptureCompare: channels in capture mode are left out, because captures come from pin events.
- Timer.CC2530Timer.DoFreeRunningMode: without pin events and the overflow flag register; overflows are counted.
- Timer.CC2530Timer.DoModuloMode: without pin events and the overflow flag register.
- Timer.CC2530Timer.DoUpDownMode: without pin events and the overflow flag register.
- Timer.CC2530Timer.DoDownMode: without pin events and the overflow flag register.
- TimerModulo.CountdownRefinesIff: channel 0 is in compare mode.
- TimerAlikeModulo.ModuloLooksAlikeIff: channel 0 is in compare mode, and channels 3 and 4, which notify nobody, are not.
- TimerAlike.FreeLooksAlikeIff: channels 3 and 4 are not in compare mode.
- TimerTurns.AllServedIff: the first channel in compare mode is one of the fully scanned ones.
- TimerDown.DownRefinesIff: two channels, as timer 3 has, from a reload.
- TimerUpDown.UpDownRefinesIff: two channels, from a scan at 0 on the way up, and CC0 not 0.
- TimerWaves.UpDownPulse: two channels, both in compare mode, from a scan at 0 with no arrival missed.
- DmaLoad.BlockIsCopied: byte blocks of fixed length that meet neither their source nor their configuration.
- TimerPeak.ThreeServesExactly: timer 1 with channels 3 and 4 out of compare mode and CC0 below half a turn, above the other two values.
- MacTimer: the tick that dispatches the modes.
- MacTimer.Timer2.OverflowCount: the decrement of the strobe processor's counter belongs to a device that is not part of this model.
- MacTimer.Timer2.Compare: the two event outputs to other devices are left out.
- DmaLaws.ScheduleIndependence: repeated channels are not covered, and destinations must be disjoint from all sources and configurations in use.
- Dma: addresses are not wrapped at 16 bits.
- Hc08: operand fetch and address decoding (an operand is an immediate byte or an effective address), BSR, branches, shifts, DAA, and memory access beyond a map of bytes.
- Hc08Programs.SumIsExact: operand addresses do not wrap at 16 bits; where the destination may lie is settled by `Hc08Placement.CorrectIff`.
- Hc08Multiply.ProductIsExact: the placement is the one that `Hc08Product.ExactIff` proves necessary; addresses do not wrap at 16 bits.
- Hc08Stack.RunRefines: runs in which the stack pointer wraps, or other code writes into the stack or the trap vector, are not covered.
- PointerList.List.AddAt: requires an index up to the count, and a free slot or a list that can grow; otherwise the code writes past its array.
- PointerList.List.Add: requires the same room.
- PointerList.List.Push: requires the same room.
- SortedList.SortedList.Add: requires the same room.
- Options.Registry.NewOption: requires the same room in the registry.
- Options.OptRef.To: requires the same room, and the option given is new; registering one twice is not covered.
- Options.OptRef.Create: requires the same room.
- Pointers are 8 bytes long, which fixes the maximum size of a list.
- Options: the users of an option are a sequence, not the pointer array that `PointerList` models; values are numbers; notifications on change, and lookup by creator name, which repeats lookup by creator.
- Unsorted string lists: their compare never reports equality, so every search fails and every add appends.
- Argz.CreateSep: memory is always found.
- Argz.Insert: requires a terminator before the given byte; in front of the first entry the code reads the byte before the buffer.
- Argz.Stringify: requires a length of at least 2; below it the length counter wraps.
- SearchPath.UserPath.InsertDir: a position to insert at must lie past the first directory of the path, as for `Argz.Insert`.
- SearchPath.ExtendBefore: requires the same of the position.
- SearchPath.UserPath.InsertSearchDir: requires the same of the position.
- Caller data of libltdl handles, module loading and the dlopen back ends.
- Radio: everything but the source address table.
- FlashDevice.FlashController.ErasePage: the BUSY bit is left out, because nothing in the controller reads it.
- FlashDevice.FlashController.FlashWrite: the FULL bit and the warnings on write counts are left out.
- FlashDevice.FlashController.Write: the FULL and BUSY bits and the 20 microsecond timer are left out.
- AVR arithmetic, the Command Strobe Processor, and timer 4, which repeats timer 3.
