# A verified model of the tablet stack

A Dafny model of six parts of the repository, with proofs of what they promise:

- **Waveform tables** of the e-paper driver: the run-length decoder and the packer (`WaveformDecoder`, `WaveformPacking`).
- **The vsync thread** against the frame generator, and the lazy clearing of its pan buffers (`Vsync`, `PanBuffers`).
- **The UI layout engine**: layout from scratch (`Widgets`, `Constraints`, `Flex`, `Wrap`), the sizes and margins it gives
  for each widget (`WidgetSizes`, `WidgetMargins`), soundness of layout and draw over whole trees (`LayoutSoundness`), and
  the cached render tree that must agree with it (`RenderTree`, `Updates`).
- **The line rasteriser** (`Line`, over `Geometry`).
- **Event and scheduling machines**: multitouch decoder (`Touch`), on-screen keyboard (`Keyboard`), timer queue (`Timers`)
  and the launcher's pause and resume machine (`Launcher`).
- **Message framing** over short reads and writes (`Framing`).

Code that changes things in place is a class with methods here, each proved against functions or predicates on its
state; what the code promises is then proved about those. Random or unordered choices, clocks, files, system calls and
other threads are parameters or explicit steps. `dafny verify dfyconfig.toml` checks everything.

## Main results

- `RenderTree.RenderObject.Run`: over every run of frames, with any updates of any subtrees, every frame's cached layout
  equals layout from scratch and leaves no mark behind, if every difference that is not marked is between alike widgets.
  `Updates.UnmarkedIsSafeIff` shows that this is exactly when skipping the mark is right.
  `RenderTree.RenderObject.StepAndDraw` carries the placement of all widgets over frames as well.
- `LayoutSoundness.LayoutSound` and `DrawSound`: by induction on the tree, every size is within its constraints and has a
  value on both axes, and every widget is drawn inside its parent with the size it was laid out with.
- `WidgetSizes` and `WidgetMargins`: the size of every widget in numbers or in the sizes of its children, and the distances
  between all drawn rectangles; `RenderTree.RenderObject.Draw` gives the latter for the drawn objects of a whole tree.
- `Wrap.WrapRenderObject.DoDraw`, `Wrap.FewestRuns`: the draw pass breaks runs where the layout pass did, although it
  tests something else, and the runs are as few as possible.
- `WaveformDecoder.DecodeAt`, `ReadTable`, `WaveformPacking.PackedLosslessly`: the two passes of the decoder agree with
  each other and with the format; packing loses nothing for either element size.
- `Vsync.EveryRun`, `Vsync.ClearedPhase`: conservation over every interleaving, whatever calls to the display fail; each
  phase is cleared once, after it was passed to the display, and it is known exactly when it had come up and when it is
  still on the display at that point. `Vsync.NeverClearedWhileShown`: if all calls succeed, it never is.
  `Vsync.EverythingCleared`, `ShutdownStops`: the thread gets through all its phases, and stops when asked to, within a
  number of steps.
- `Line.Canvas.DrawLine`: stops for all end points and sets exactly the pixels of a closed form that is within half a
  pixel of the ideal line.
- `Framing.RoundTrip`, `CutStream`, `RecvMessages`, `TransferClient`: messages survive any split of the stream; a cut stream
  gives the complete messages and an end of file.
- `Touch.WholeFrames`, `LastMeasured`, `Keyboard.KeyboardRenderObject.Run`, `Timers.AppContext.CheckTimers`,
  `Launcher.LauncherState.Run`: what holds over every event stream, run and sweep.

## Where the code does not do what it should

Each of these is proved, with the exact condition under which the code is right:

- A row or column whose Expanded weights change is not marked for layout (Flex.h:46-60), nor is an image whose canvas
  changes size (Image.h:78-83). Cached sizes then go stale (`RenderTree.RenderObject.StaleImage`, `StaleRow`; weights 1
  and 1 changed to 1 and 2 in a space of 6, `Updates.HalfToThird`).
  `Updates.UnmarkedIsSafeIff`: an unmarked update is harmless for all children and all constraints that layout can be
  given if and only if the weights stay proportional and sizes stay the same, for weights that are multiples of some 1/n
  whose total times n is an int.
- The total of the weights is truncated to an int at every step (Flex.h:160-161), so fractional weights can hand out more
  space than there is (`Flex.OverAllocatesHere`). `Flex.NeverOverAllocates`: never, in any space below the largest int,
  if and only if all weights are whole, again for multiples of 1/n.
- The vsync thread ignores whether its calls to the display succeed. After a failed pan it clears a phase that is on the
  display (`Vsync.ClearedOnDisplay`), and after a failed unblank it consumes and clears a phase that was never seen
  (`Vsync.ClearedUnseen`). `Vsync.ClearedPhase` gives the exact conditions; after an init waveform that could not pan to
  the empty phase, `Vsync.SlotOver` gives them from there on.
- Phases can go by unseen even if every call succeeds: after a clear request the inner loop takes them on a dark panel
  (`Vsync.ClearedDark`). `Vsync.AllSeenIff` says exactly when this happens, and `Vsync.SeenWithoutRequests` that it takes a
  request.
- A clear request overwrites slots 0 to 2 of the ring whatever waits there (Vsync.cpp:172-197). `Vsync.InitSparesWaiting`:
  it spares every waiting phase if and only if nothing waits or all of it lies after slot 2 and before the next wrap.
- Padding and Border draw their child with the size it was laid out with if and only if the insets fit into the maximum
  on both axes (`Constraints.ShrinkUndoesExpand`).
- A launch that fails while another app is current leaves the launcher hidden with that app paused
  (Launcher.cpp:284-289); the next show pauses a paused app, against an assertion
  (`Launcher.LauncherState.FailingRun`). `Launcher.LauncherState.SwitchApp`: the invariant is kept if and only if the
  launch succeeds, or the app runs already, or there is no current app.
- Two tracking-id events for one slot within a frame lose a contact (`Touch.TapWithinAFrame`). `Touch.WholeFrames`:
  the reported downs and ups are those of the input if and only if no frame has two.
- An app that is deleted while it runs and put back on disk is still dropped from the list when it ends
  (`Launcher.DroppedThoughOnDisk`), since nothing takes the mark back. `Launcher.StaysListedIff`: an app on disk stays
  listed if and only if it has no mark.
- A press by a finger that already owns another key leaves one finger with two keys
  (`Keyboard.KeyboardRenderObject.OneFingerTwoKeys`; `Keyboard.DoublePress`, both directions).
- A modifier key that is pressed until it is held stays stuck as well, so the next tap does not turn it off
  (`Keyboard.HeldIsStuck`). `Keyboard.TapToggles`: a tap turns a modifier on or off if and only if it is not both.
- Lazy clearing equals full clearing if and only if every line that differs from the zero line is flagged
  (`PanBuffers.LazyRefinesFull`).

## Model

| member | source | states |
|---|---|---|
| Line.MinorStepsRound | libs/rMlib/Canvas.cpp:213-236 | after i major and k minor steps, 2*abs(k*major - i*minor) <= major; the minor count never decreases, never passes the end, and moves by at most one |
| Line.WithinHalfAPixel | libs/rMlib/Canvas.cpp:213-236 | pixel i is i major steps from the start and within half a pixel of the ideal line along the minor axis, in both cases of the comparison of dx and dy |
| Line.Endpoints | libs/rMlib/Canvas.cpp:221-225 | the line starts at start and hits end exactly after max(dx, dy) steps and not before |
| Line.Connected | libs/rMlib/Canvas.cpp:227-235 | consecutive pixels are different neighbours and no pixel comes twice |
| Line.InBoundingBox | libs/rMlib/include/Canvas.h:86-90 | no pixel leaves the box of the two end points, so setPixel's assertion holds |
| Line.ErrorStep | libs/rMlib/Canvas.cpp:227-235 | the two tests of the error term take one major step, and a minor step exactly when the rounded closed form moves |
| Line.ErrorStart | libs/rMlib/Canvas.cpp:219 | the start value of the error term, with division truncating toward zero, is that of the closed form |
| Line.Canvas.SetPixel | libs/rMlib/include/Canvas.h:86-90 | changes one pixel and no other |
| Line.Canvas.DrawLine | libs/rMlib/Canvas.cpp:206-237 | stops, and sets exactly the pixels of the closed form; every other pixel keeps its value |
| WaveformDecoder.RoundTrip | libs/swtcon/Waveforms.cpp:243-307 | whatever literals and runs of 1 to 256 repetitions are encoded with escape and stop bytes, anywhere in a file, decoding gives the four codes of every element as often as it is repeated |
| WaveformDecoder.OneRun | libs/swtcon/Waveforms.cpp:266-292 | the run with count byte 0 of the element 0x1b expands to the four codes 3, 2, 1, 0, once |
| WaveformDecoder.TableFound | libs/swtcon/Waveforms.cpp:220-241 | a table is found at the end of three 24-bit little-endian offsets: at 0x20, in the entry of the mode, in the entry of the temperature |
| WaveformDecoder.NoTable | libs/swtcon/Waveforms.cpp:222-232 | there is none for a mode above the byte at 0x25 or a temperature above the byte at 0x26 |
| WaveformDecoder.TableRoundTrip | libs/swtcon/Waveforms.cpp:220-307 | a file whose header leads to an encoded table, with stop byte at 0x28 and escape byte at 0x29, decodes to the meaning of its segments |
| WaveformDecoder.ExpandsToCodes | libs/swtcon/Waveforms.cpp:289-292 | decoded output consists of 2-bit codes, four for every element |
| WaveformDecoder.CodesLossless | libs/swtcon/Waveforms.cpp:289-292 | a byte is recovered from its four codes |
| WaveformDecoder.ExtractCodes | libs/swtcon/Waveforms.cpp:289-292 | the shifts of the 32-bit register extract the four codes of the byte |
| WaveformDecoder.EmitRun | libs/swtcon/Waveforms.cpp:276-298 | the sizing pass, two repetitions at a time with an early exit, counts what the decoding pass writes, for odd and even lengths |
| WaveformDecoder.DecodeAt | libs/swtcon/Waveforms.cpp:249-306 | for every terminated stream the size is that of the recursive two-mode expansion, and a given buffer receives exactly that expansion and is left alone after it |
| WaveformDecoder.GetTableAt | libs/swtcon/Waveforms.cpp:243-307 | -1 for a mode or temperature above the file's maxima, wherever its offsets point; otherwise size and contents of the expansion |
| WaveformDecoder.ReadTable | libs/swtcon/Waveforms.cpp:374-385 | sizing pass and decoding pass agree: the buffer allocated from the first is filled exactly by the second |
| WaveformPacking.PutCode | libs/swtcon/Waveforms.cpp:424 | or-ing a 2-bit code into an empty lane sets that lane and keeps the other seven |
| WaveformPacking.WordDetermined | libs/swtcon/Waveforms.cpp:424-433 | a 16-bit word is determined by its eight codes, so a packed table is determined by what it unpacks to |
| WaveformPacking.WordIs | libs/swtcon/Waveforms.cpp:424-433 | the k-th code of a word is in its bits 2k and 2k + 1 |
| WaveformPacking.DropZerosIsSuffix | libs/swtcon/Waveforms.cpp:413-421 | skipping removes exactly the leading no-op phases |
| WaveformPacking.Unpack | libs/swtcon/Waveforms.cpp:431-432 | code k of a transition is lane k % 8 of its word k / 8 |
| WaveformPacking.AddCode | libs/swtcon/Waveforms.cpp:411-433 | one code enters the accumulator, which is stored after every eighth and after the last phase; words of other transitions keep their values |
| WaveformPacking.PackTransition | libs/swtcon/Waveforms.cpp:403-434 | the words of one transition hold its codes over all phases (after the leading no-ops when these are skipped), then zeros; no access is out of bounds |
| WaveformPacking.PackTable | libs/swtcon/Waveforms.cpp:387-436 | all 256 transitions are packed from their transposed source positions, which the two pointers reach by their increments, in either layout |
| WaveformPacking.PhasesAt | libs/swtcon/Waveforms.cpp:360-368 | phase k of a transition is read in bounds |
| WaveformPacking.ElementIs | libs/swtcon/Waveforms.cpp:360-368 | the index read for word row r, column c and phase k is row c, column r of the k-th 16 x 16 matrix, or row 2c, column 2r of the k-th 32 x 32 matrix |
| WaveformPacking.PackedLosslessly | libs/swtcon/Waveforms.cpp:387-436 | unpacking gives back, for every word row and column, the code at the transposed place of every matrix in order, after the skipped leading zeros, with zeros at the end |
| WaveformPacking.TableUnpacks | libs/swtcon/Waveforms.cpp:374-436 | for every table that the decoder produces, unpacking gives back its own elements at the transposed positions, without the skipped leading zeros |
| WaveformPacking.ClearDiagonal | libs/swtcon/Waveforms.cpp:442-453 | the partial table equals the full one except that in every block of 16 x 16 words those with the same row and column are zero |
| WaveformPacking.DiagonalIs | libs/swtcon/Waveforms.cpp:442-453 | the positions in steps of 0x11 are those where row and column of a block are the same |
| WaveformPacking.ReadWaveformTable | libs/swtcon/Waveforms.cpp:374-456 | one temperature: nothing for a missing or empty table, otherwise a full table that unpacks to the elements of the decoded table, transposed, as wide matrices exactly if bits 2 and 3 of the byte at 0x24 hold 1, and the same or a diagonal-cleared partial one |
| WaveformPacking.ReadInitTable | libs/swtcon/Waveforms.cpp:319-344 | one temperature: the first code of every phase, of 32 x 32 or 16 x 16 elements by the byte at 0x24 |
| PanBuffers.LazyRefinesFull | libs/swtcon/Vsync.cpp:25-53 | lazy and full clearing agree if and only if every line that differs from the zero line is flagged |
| PanBuffers.NormPhaseIs | libs/swtcon/Util.h:5-8 | the slot of a pan phase is its place in its lap of 16 |
| PanBuffers.Buffers.ClearDirtyBuffer | libs/swtcon/Vsync.cpp:25-53 | clears the flagged lines and all flags of one phase, touches no other phase, no flag of another and no preamble, and equals a full clear when the flags cover the content |
| PanBuffers.Buffers.ZeroInitSlots | libs/swtcon/Vsync.cpp:191-197 | slots 0 to 2 become the zero buffer; no other slot and no flag changes, and the flags still cover the content |
| Vsync.StepKeepsInv | libs/swtcon/Vsync.cpp:56-206 | every step of the thread or of another thread, whatever calls fail, keeps the invariant and the balance of consumed and cleared phases |
| Vsync.EveryRun | libs/swtcon/Vsync.cpp:56-206 | over every interleaving, whatever calls fail, dirtyClearCount plus the phases still to be cleared minus currentPanPhase is constant, currentPanPhase never passes lastPanPhase, previousPanPhase is negative or currentPanPhase - 1, and phases are consumed and cleared in order, each once |
| Vsync.PanelStep | libs/swtcon/fb.cpp:72-133 | only calls that succeed turn the panel on or off; the flag is set by every blank, by one that fails too, and taken back only by a successful unblank |
| Vsync.ClearedPhase | libs/swtcon/Vsync.cpp:59-86 | over every run, a phase about to be cleared was passed to the display at one step and not cleared before; it was displayed iff that call succeeded with the panel on; it is on the display now iff the panel is on, its slot was taken and no pan has succeeded since, except after an init waveform that could not pan to the empty phase |
| Vsync.ConsumingStep | libs/swtcon/fb.cpp:72-121 | the step that consumes a phase displays it iff the call succeeds with the panel on |
| Vsync.SlotStep | libs/swtcon/fb.cpp:102-121 | while a phase waits to be cleared, every step but such an init waveform keeps its slot in the register until a pan succeeds, and never brings it back |
| Vsync.SlotOver | libs/swtcon/Vsync.cpp:59-161 | from any state on: the register holds the slot of a phase that is not yet cleared iff it did at first and no pan has succeeded since |
| Vsync.ClearedOnDisplay | libs/swtcon/Vsync.cpp:59-72 | a run in which the pan to the next phase fails: the phase before is cleared on the display |
| Vsync.ClearedUnseen | libs/swtcon/Vsync.cpp:149-156 | a run in which unblanking fails: a phase is consumed and cleared without having been displayed |
| Vsync.AllSeenIff | libs/swtcon/Vsync.cpp:59-161 | when all calls succeed, every phase consumed is displayed iff the inner loop never takes one after a step that turned the panel off and before the step that turns it on without a pending request |
| Vsync.SeenWithoutRequests | libs/swtcon/Vsync.cpp:59-161 | when all calls succeed and no request is made, every phase consumed is displayed |
| Vsync.ClearedDark | libs/swtcon/Vsync.cpp:163-201 | a run whose calls all succeed: a phase arrives while a clear request is pending, its slot is overwritten, and it is consumed and cleared on a dark panel |
| Vsync.NeverClearedWhileShown | libs/swtcon/Vsync.cpp:59-86 | if all calls to the display succeed, no phase is cleared while it is on the display |
| Vsync.AllClearedWhenWaiting | libs/swtcon/Vsync.cpp:85-147 | whenever the thread waits, every phase consumed has been cleared exactly once, in order, and counted |
| Vsync.ClearingSparesPending | libs/swtcon/Vsync.cpp:69-86 | if the generator keeps at most 16 phases uncleared, the lazy clearing never hits the slot of a phase still to be shown |
| Vsync.InitSparesWaiting | libs/swtcon/Vsync.cpp:172-197 | a clear request spares every waiting phase iff nothing waits or all of it lies after slot 2 and before the next wrap of the ring |
| Vsync.InitKeepsWaiting | libs/swtcon/Vsync.cpp:191-197 | the contents of the waiting phases survive a clear request iff those in slots 0 to 2 had none |
| Vsync.ShutdownStops | libs/swtcon/Vsync.cpp:56-206 | a requested shutdown stops the thread in every schedule with three steps of the thread for each phase that waits or is raised meanwhile and ten more, whatever calls fail |
| Vsync.StoppedByRequest | libs/swtcon/Vsync.cpp:203-205 | the thread has stopped only if a shutdown was requested |
| Vsync.ClearServed | libs/swtcon/Vsync.cpp:163-205 | a clear request is served before the thread stops, unless it comes after the last look at it |
| Vsync.EverythingCleared | libs/swtcon/Vsync.cpp:56-147 | without requests and new phases, three steps for each phase that waits and twelve more bring the thread to rest with every phase raised so far consumed and cleared, in order, whatever calls fail |
| Vsync.VsyncThread.StepDrain | libs/swtcon/Vsync.cpp:59-75 | the statements of the inner loop, on the shared variables and buffers, are the steps of the machine; the step that clears a phase leaves its slot without content and flags, and no step changes any other slot |
| Vsync.VsyncThread.StepSettle | libs/swtcon/Vsync.cpp:77-86 | the same for moving to the empty phase and clearing the last phase |
| Vsync.VsyncThread.StepWait | libs/swtcon/Vsync.cpp:97-147 | waiting and blanking are steps of the machine and cannot reach the buffers |
| Vsync.VsyncThread.StepWake | libs/swtcon/Vsync.cpp:149-161 | unblanking is a step of the machine; the counters move even if it fails |
| Vsync.VsyncThread.StepRequests | libs/swtcon/Vsync.cpp:163-205 | the two request steps of the machine; a clear request that can run leaves slots 0 to 2 without content, everything else and all flags unchanged |
| Vsync.VsyncThread.RunAll | libs/swtcon/Vsync.cpp:56-206 | over every run, against a generator that draws any lines, the shared variables are those of the machine and the dirty flags always cover the content, so every lazy clear is a full one |
| Framing.Int32RoundTrip | libs/rm2fb/Message.h:62 | every int32 is recovered from its four bytes |
| Framing.LittleEndian | libs/rm2fb/Message.h:62 | byte k of an int32 is its value divided by 256 to the k, modulo 256 |
| Framing.OnTheWire | libs/rm2fb/Message.h:42-64 | the bytes of the client's three messages: index, fields in order, padding |
| Framing.DecodeEncode | libs/rm2fb/Message.h:59-88 | receiving what was sent gives the message and leaves the rest of the stream |
| Framing.DecodeCut | libs/rm2fb/Message.h:83-88 | a stream that ends inside a message gives end of file |
| Framing.CompleteIsLongestPrefix | libs/rm2fb/Message.h:59-88 | the number of complete messages in a cut stream is the length of the longest prefix whose bytes fit |
| Framing.CutStream | libs/rm2fb/Message.h:66-88 | a stream cut anywhere gives exactly its complete messages, then end of file: never a wrong message or another error |
| Framing.RoundTrip | libs/rm2fb/Message.h:59-88 | every list of messages is received unchanged and in order |
| Framing.UnpackPack | libs/rm2fb/Message.h:42-57 | the fields of the client's three messages survive whatever the padding bytes are |
| Framing.Descriptor.ReadAll | libs/unistdpp/unistdpp.cpp:7-25 | for every split into short reads, the buffer holds the next bytes of the stream, all of them or up to its end; after a failed call a prefix is consumed, and the error is that of the one call that failed |
| Framing.Descriptor.WriteAll | libs/unistdpp/unistdpp.cpp:27-41 | for every split into short writes, all bytes are appended; after a failed call a proper prefix is, and the error is that of the one call that failed |
| Framing.Descriptor.ReadObject | libs/unistdpp/include/unistdpp/unistdpp.h:48-59 | an object is read whole, or the stream is at its end and the result is end of file |
| Framing.SendMessage | libs/rm2fb/Message.h:59-64 | appends the encoding of the message |
| Framing.ReadAlternative | libs/rm2fb/Message.h:66-81 | the recursive dispatch reads the alternative of the index, and any other index is a bad message |
| Framing.RecvMessage | libs/rm2fb/Message.h:83-88 | however the reads are split, the result and the remaining stream are those of Decode |
| Framing.RecvMessages | libs/rm2fb/Message.h:83-88 | repeated receives give what the bytes alone determine; if a call fails, the messages received are the first of those, and the error is that of the one call that failed |
| Framing.Transfer | libs/rm2fb/Message.h:59-88 | end to end, through any short writes and reads, the messages received are those sent |
| Framing.TransferClient | libs/rm2fb/Message.h:42-88 | any list of client messages, with any padding, arrives through any short writes and reads and is read back unchanged |
| Touch.OneEvent | libs/rMlib/Input.cpp:182-226 | one event reports what was unreported, or keeps it, or replaces it by the contact it asks for |
| Touch.Faithful | libs/rMlib/Input.cpp:182-226 | over every stream a slot never reports more contacts than requested, and exactly those, in order and with their ids, iff no frame has two tracking-id events for it |
| Touch.WholeFrames | libs/rMlib/Input.cpp:182-226 | for whole frames the downs and ups reported for a slot are the begins and ends of the input iff no frame has two of them |
| Touch.TapWithinAFrame | libs/rMlib/Input.cpp:203-212 | the smallest failing frame: a contact that begins and ends within it is reported as an end only |
| Touch.MatchingIds | libs/rMlib/Input.cpp:203-212 | every end carries the id of the contact before it |
| Touch.LastMeasured | libs/rMlib/Input.cpp:213-222 | a slot holds the x, y and pressure of the last event for it, whatever events of other kinds and slots come between |
| Touch.Unmeasured | libs/rMlib/Input.cpp:213-222 | without such an event it keeps what it has |
| Touch.ReportedIff | libs/rMlib/Input.cpp:183-200 | a report takes exactly the slots selected during an event since the last report, each once, with all they hold |
| Touch.TouchDevice.HandleEvent | libs/rMlib/Input.cpp:181-226 | the device's new state and the reports of every slot are those of the specification; a changed slot is reported once, with the transform of its location |
| Timers.AfterSweep | libs/rMlib/include/UI/AppContext.h:42-56 | after a sweep a due timer has fired exactly once unless an earlier callback disabled it, no other timer has fired, and exactly the timers that must wait on are queued |
| Timers.SweepFire | libs/rMlib/include/UI/AppContext.h:44-51 | firing the front timer, whatever its callback adds or disables, keeps the record of the sweep right |
| Timers.FireShrinksDue | libs/rMlib/include/UI/AppContext.h:43-55 | every firing lowers the number of due entries, so the loop stops |
| Timers.AppContext.AddTimer | libs/rMlib/include/UI/AppContext.h:20-28 | the timer is queued; one due later than the front leaves the front in place |
| Timers.AppContext.RunCallback | libs/rMlib/include/UI/Timer.h:44-55 | the callback makes exactly its timers, in order and due after their delays, disables exactly those it drops, and queues exactly the new ones; the front stays |
| Timers.AppContext.Check | libs/rMlib/include/UI/Timer.h:44-55 | a disabled timer is done without firing, a due one fires once, with exactly the effect of its callback; the entry to be popped stays the one checked even if the callback adds timers |
| Timers.AppContext.CheckTimers | libs/rMlib/include/UI/AppContext.h:42-56 | at a fixed time the loop stops, nothing due remains queued, one callback has run for every timer fired, and the record of the sweep says what happened to every timer |
| Keyboard.DownKeepsKeysOk | apps/yaft/keyboard.cpp:427-448 | a press by a finger that owns no other key keeps: no finger owns two keys, only fingers that are down own keys, only modifiers are stuck or held |
| Keyboard.DoublePress | apps/yaft/keyboard.cpp:433-438 | a press keeps fingers and keys matched iff its finger owns no other key |
| Keyboard.KeyboardRenderObject.OneFingerTwoKeys | apps/yaft/keyboard.cpp:433-438 | a finger that comes down on a second key without having been lifted owns both |
| Keyboard.PressClearsStuck | apps/yaft/keyboard.cpp:406-422 | over every run in which it is not pressed again, a modifier stays stuck exactly until the first press of an ordinary key, and stays held once held; an ordinary key is never stuck |
| Keyboard.TapLasts | apps/yaft/keyboard.cpp:424-463 | a tapped modifier is stuck over any run of other keys' events until the next ordinary press |
| Keyboard.TapIsOneShot | apps/yaft/keyboard.cpp:424-463 | a tapped modifier applies to the next ordinary key and not to the one after |
| Keyboard.LongPressHolds | apps/yaft/keyboard.cpp:239-265 | a modifier pressed until it repeats still applies after an ordinary key |
| Keyboard.TapToggles | apps/yaft/keyboard.cpp:440-446 | a tap of a modifier turns it on or off iff it is not both stuck and held |
| Keyboard.HeldIsStuck | apps/yaft/keyboard.cpp:239-265 | a modifier pressed until it is held is stuck too, so the next tap leaves it on |
| Keyboard.TapSends | apps/yaft/keyboard.cpp:330-346 | an ordinary key after the tap of a modifier is sent with that modifier alone, as its second code for shift; the next is sent plain, and a repeat as its long-press code if it has one |
| Keyboard.RepeatTimes | apps/yaft/keyboard.cpp:239-265 | a key pressed and not let go is due after the delay and then every repeat time, or five hours with a long-press code; the first time makes a modifier held |
| Keyboard.TypingPostponesHold | apps/yaft/keyboard.cpp:405-417 | a modifier under a finger is not taken for held while other keys are pressed within the delay of each other |
| Keyboard.KeyboardRenderObject.constructor | apps/yaft/keyboard.cpp:283-306 | the modifier keys of the layout are found and no key is pressed |
| Keyboard.KeyboardRenderObject.SendKeyDown | apps/yaft/keyboard.cpp:330-346 | sends the code for the modifiers that are down, and changes no key's state |
| Keyboard.KeyboardRenderObject.ClearSticky | apps/yaft/keyboard.cpp:405-422 | releases stuck modifiers, delays their repeat, and changes no other key |
| Keyboard.KeyboardRenderObject.TouchDown | apps/yaft/keyboard.cpp:427-449 | for any finger: the new state of every key and what is sent, with the modifiers as they were before the press; keys and fingers stay matched iff the finger owns no other key |
| Keyboard.KeyboardRenderObject.TouchUp | apps/yaft/keyboard.cpp:450-462 | for any finger: releases a key that it owns, which in matched states is the only one, or changes nothing |
| Keyboard.KeyboardRenderObject.UpdateRepeat | apps/yaft/keyboard.cpp:239-265 | every due key repeats once, in the order of the map, which gains no entry meanwhile; with all fingers lifted nothing is sent |
| Keyboard.KeyboardRenderObject.Run | apps/yaft/keyboard.cpp:239-463 | over every run of alternating fingers the matching of keys and fingers holds, every key ends in the state its own events give, and with all fingers lifted no key is owned |
| Launcher.AtMostOneActive | apps/rocket/Launcher.cpp:265-293 | at most one app runs unpaused, it is the current one, and there is none while the launcher shows |
| Launcher.FailedLaunch | apps/rocket/Launcher.cpp:282-289 | a failed launch keeps the invariant iff there is no current app |
| Launcher.FailedLaunchThenShow | apps/rocket/Launcher.cpp:201-203 | after a failed launch over a current app the next show pauses an app that is paused already |
| Launcher.LauncherState.FailingRun | apps/rocket/Launcher.cpp:264-289 | a run of the launcher: of two apps on disk the first is launched and launching the second fails; the first is left current and paused with the launcher hidden |
| Launcher.RescanKeeps | apps/rocket/Launcher.cpp:347-383 | reading the directories keeps every running app, the paths that name them, and their flags |
| Launcher.StaysListedIff | apps/rocket/Launcher.cpp:310-371 | an app that is on disk at a rescan is still listed after its process has ended iff it is not marked for removal |
| Launcher.DroppedThoughOnDisk | apps/rocket/Launcher.cpp:356-371 | an app that is missing at one rescan while it runs is dropped when it ends, although it was back on disk at the next rescan |
| Launcher.LauncherState.Pause | apps/rocket/App.cpp:162-171 | under the asserted precondition, sets the paused flag of that run info alone |
| Launcher.LauncherState.Resume | apps/rocket/App.cpp:173-187 | under the asserted precondition, clears it |
| Launcher.LauncherState.Launch | apps/rocket/App.cpp:133-153 | a successful launch gives the app a new, unpaused run info; a failed one changes nothing |
| Launcher.LauncherState.SwitchApp | apps/rocket/Launcher.cpp:264-293 | the app comes to the front, running and unpaused, with the old current path as previous; the invariant is kept iff the launch succeeds, the app runs already, or nothing is current |
| Launcher.LauncherState.ReadApps | apps/rocket/Launcher.cpp:323-384 | the list has the apps on disk and those gone but running, which are marked, sorted by path; known apps keep their run infos |
| Launcher.LauncherState.Show | apps/rocket/Launcher.cpp:195-207 | the precondition of pause holds; exactly the current app's flag changes, the list becomes that of a rescan, and the invariant is kept with every running app paused |
| Launcher.LauncherState.Hide | apps/rocket/Launcher.cpp:209-221 | goes to the highlighted app, else to the current one; both run, so nothing is launched |
| Launcher.LauncherState.LongPress | apps/rocket/Launcher.cpp:123-139 | the highlight moves to the next running app, going round at the end |
| Launcher.NextHighlightIs | apps/rocket/Launcher.cpp:123-139 | no running app is passed over on the way from the highlighted app, round the end, to the next one; there is none exactly if no app runs |
| Launcher.FirstHighlight | apps/rocket/Launcher.cpp:123-139 | with nothing highlighted, the first running app is |
| Launcher.LauncherState.UpdateStoppedApps | apps/rocket/Launcher.cpp:295-321 | run infos of ended processes are gone; each path is emptied iff its app stopped; exactly the marked apps that do not run are removed; the launcher then shows iff the current app stopped |
| Launcher.LauncherState.Run | apps/rocket/Launcher.cpp:120-321 | over every run in which launches succeed the invariant holds and no precondition of pause, resume or launch is violated |
| Constraints.InsetGood | libs/rMlib/include/UI/Util.h:64-78 | insetting keeps 0 <= min <= max and min 0 on axes without a maximum |
| Constraints.ExpandContained | libs/rMlib/include/UI/Util.h:80-86 | a child size within the inset constraints expands to a size within the constraints |
| Constraints.ShrinkUndoesExpand | libs/rMlib/include/UI/Layout.h:160-171 | the child of a Padding is drawn with exactly its layout size iff the insets fit into the maximum |
| Wrap.Growth | libs/rMlib/include/UI/Wrap.h:41-84 | between two children the open run only grows, or it is closed and lies before all later ones |
| Wrap.SameBreak | libs/rMlib/include/UI/Wrap.h:100-121 | at every child the draw pass's test of the centred offset against the rectangle agrees with the layout pass's test of the run against the maximum |
| Wrap.RunSizesPrefix | libs/rMlib/include/UI/Wrap.h:112-121 | the run size looked up at a line break exists and is the one of the run just ended |
| Wrap.ChildInside | libs/rMlib/include/UI/Wrap.h:123-124 | every child is drawn inside the rectangle with its layout size |
| Wrap.ChildrenDisjoint | libs/rMlib/include/UI/Wrap.h:123-124 | no two children overlap |
| Wrap.GreedyIsDivision | libs/rMlib/include/UI/Wrap.h:41-84 | the runs of the layout pass divide the children in order, and each fits the maximum |
| Wrap.GreedyIsOptimal | libs/rMlib/include/UI/Wrap.h:41-84 | no order-preserving division of a prefix of the children has fewer runs, and one with as many fills its last run at least as much |
| Wrap.FewestRuns | libs/rMlib/include/UI/Wrap.h:41-84 | when every child fits, the number of runs is the minimum over all order-preserving divisions into runs that fit |
| Wrap.WrapRenderObject.DoLayout | libs/rMlib/include/UI/Wrap.h:33-98 | the loop leaves the run sizes, the total and the result of the recursive specification |
| Wrap.WrapRenderObject.DoDraw | libs/rMlib/include/UI/Wrap.h:100-135 | in a rectangle of the returned size, runSizes.at never fails and every child is drawn where the layout pass put it |
| Flex.TotalIsFloorSum | libs/rMlib/include/UI/Flex.h:160-161 | the truncated running total is at most the sum of the weights, and equal iff all are whole |
| Flex.AllocationBounds | libs/rMlib/include/UI/Flex.h:172 | each allocation is the exact share rounded down |
| Flex.SpaceIsDivided | libs/rMlib/include/UI/Flex.h:159-196 | with whole weights the allocations sum to at most the remaining space and miss it by less than one unit for each Expanded child |
| Flex.FractionsOverAllocate | libs/rMlib/include/UI/Flex.h:160-172 | with a fractional weight among multiples of 1/n, a space of n times the truncated total is exceeded |
| Flex.OverAllocatesHere | libs/rMlib/include/UI/Flex.h:160-172 | two weights of 1.5 in a space of 4 get 3 each |
| Flex.NeverOverAllocates | libs/rMlib/include/UI/Flex.h:159-196 | for weights that are multiples of 1/n, the allocations stay within every space below the largest int iff all weights are whole |
| Flex.ChildInside | libs/rMlib/include/UI/Flex.h:98-127 | every child is drawn inside a rectangle of the returned size, with its layout size |
| Flex.ChildrenContiguous | libs/rMlib/include/UI/Flex.h:98-127 | each child starts right after the one before it |
| Flex.ChildrenDisjoint | libs/rMlib/include/UI/Flex.h:98-127 | no two children overlap |
| Flex.FlexRenderObject.DoLayout | libs/rMlib/include/UI/Flex.h:62-96 | the two passes leave the child sizes, the total and the result of the specification: fixed children first, the others from what remains |
| Flex.FlexRenderObject.DoDraw | libs/rMlib/include/UI/Flex.h:98-127 | the running offset puts every child where the closed form says |
| LayoutSoundness.SingleSound | libs/rMlib/include/UI/Layout.h:146-470 | one widget with at most one child (Text, Image, Colored, Padding, Border, Center, Corner, Sized, Cleared) returns a size within its constraints if its child does |
| LayoutSoundness.StackSound | libs/rMlib/include/UI/Stack.h:48-57 | the same for Stack |
| LayoutSoundness.RunsFit | libs/rMlib/include/UI/Wrap.h:41-84 | runs of children that each fit along the main axis fit along it too |
| LayoutSoundness.WrapSound | libs/rMlib/include/UI/Wrap.h:33-98 | the same for Wrap, when each child fits along the main axis and the runs across it |
| LayoutSoundness.FlexSound | libs/rMlib/include/UI/Flex.h:62-96 | the same for Row and Column, from the division of space |
| LayoutSoundness.ChildConstraintsGood | libs/rMlib/include/UI/Flex.h:66-80 | good constraints are passed on as good constraints, also to Expanded children |
| LayoutSoundness.LayoutSound | libs/rMlib/include/UI/RenderObject.h:48-51 | for every tree whose children do not overflow, layout returns a bounded size within its constraints: the two assertions of layout hold at every node |
| LayoutSoundness.PlaceSound | libs/rMlib/include/UI/Layout.h:37-470 | a widget drawn in a rectangle of its size draws each child inside it, with the child's size |
| LayoutSoundness.DrawSound | libs/rMlib/include/UI/RenderObject.h:69-76 | in every tree every widget is drawn with the size layout returned, inside its parent, and children of rows, columns and wraps do not overlap |
| WidgetSizes.OwnSize | libs/rMlib/include/UI/Text.h:48-71 | a text or image takes its own size, or the nearer bound |
| WidgetSizes.FillerSize | libs/rMlib/include/UI/Image.h:35-47 | a filler takes the maximum, or the minimum where there is none |
| WidgetSizes.SizedSize | libs/rMlib/include/UI/Layout.h:379-400 | the child is laid out with the size asked for, or the nearer bound, on each side asked for, and with the bounds as they are on the other; in a tree that fits it takes that size |
| WidgetSizes.CenterSize | libs/rMlib/include/UI/Layout.h:17-29 | Center and Corner take the maximum, or the size of the child where there is none, which has no minimum |
| WidgetSizes.ClearedSize | libs/rMlib/include/UI/Layout.h:455-457 | the size of the child under the same constraints |
| WidgetSizes.PaddedSize | libs/rMlib/include/UI/Layout.h:160-164 | Padding and Border take the size of the child and the insets, as far as the maximum goes; the child gets what the insets leave |
| WidgetSizes.PaddedFits | libs/rMlib/include/UI/Layout.h:160-164 | all of both in a tree that fits |
| WidgetSizes.StackSizeIs | libs/rMlib/include/UI/Stack.h:48-57 | every child gets the same constraints; the size is the largest of the children's and the minimum |
| WidgetSizes.FlexSizeIs | libs/rMlib/include/UI/Flex.h:62-200 | fixed children may be of any length; every Expanded child has exactly its part of what they leave, rounded down; the size is the sum of the lengths and the largest width, or the minimum |
| WidgetSizes.WrapSizeIs | libs/rMlib/include/UI/Wrap.h:33-98 | the children are in runs that fit and have no room for the next child; the size is the longest run and the sum of the widths of the runs, or the minimum |
| WidgetMargins.RowArranged | libs/rMlib/include/UI/Flex.h:98-127 | each child starts where the one before ends; the block is centred along the axis and each child across it, to within one |
| WidgetMargins.RunsArranged | libs/rMlib/include/UI/Wrap.h:100-135 | each child starts where the one before ends if it has room there, else beside the first child and past all children so far; the block is centred on both axes to within one |
| WidgetMargins.ArrangedByDraw | libs/rMlib/include/UI/Layout.h:37-470 | for every kind of widget: a padded child has the four insets as margins, a centred one has opposite margins within one of each other, one in a corner touches its two edges, a stacked one the top left, and rows and wraps are as above |
| Updates.AlikeLayout | libs/rMlib/include/UI/RenderObject.h:44-59 | trees that differ only in corners, flags and proportional weights have the same layout, and keep the same for draw, under all constraints |
| Updates.DisproportionShows | libs/rMlib/include/UI/Flex.h:46-60 | weights that are multiples of 1/n and not proportional give some children other constraints, in a space below the largest int |
| Updates.MarksWhatShows | libs/rMlib/include/UI/Text.h:36-44 | where texts have the size of their font, an unmarked update of other widgets than images and rows is between alike widgets; an unchanged widget is marked iff it is a stack that asks for that or loses children, or a wrap that gets more or fewer |
| Updates.UnmarkedIsSafeIff | libs/rMlib/include/UI/Image.h:78-83 | an update that marks nothing keeps all layouts under all good constraints iff the two widgets are alike; it fails for images of another size and for rows whose weights change out of proportion |
| RenderTree.RenderObject.NeedsLayout | libs/rMlib/include/UI/RenderObject.h:105-107 | the cached, short-circuited question over the tree is answered as by looking at every mark |
| RenderTree.RenderObject.GetNeedsLayout | libs/rMlib/include/UI/RenderObject.h:401-406 | the same for the children, of which only some are asked |
| RenderTree.RenderObject.MarkNeedsLayout | libs/rMlib/include/UI/RenderObject.h:322-327 | marks every object of the subtree |
| RenderTree.RenderObject.AllMarkedIsConsistent | libs/rMlib/include/UI/RenderObject.h:322-327 | a fully marked subtree relies on nothing remembered |
| RenderTree.RenderObject.Reset | libs/rMlib/include/UI/RenderObject.h:351-356 | forgets all cached answers of the subtree |
| RenderTree.RenderObject.Layout | libs/rMlib/include/UI/RenderObject.h:44-59 | returns and remembers exactly what layout from scratch gives for these constraints and leaves no object of the tree marked, if the memory was right; an unmarked object asked again under the same constraints returns what it remembers, right or not |
| RenderTree.RenderObject.SizesForDraw | libs/rMlib/include/UI/RenderObject.h:111 | what draw reads, getSize of each child and the fields of Center, Corner, rows and wraps, is as after a layout from scratch, also where layout was skipped |
| RenderTree.RenderObject.StaleImage | libs/rMlib/include/UI/Image.h:78-83 | an image object whose image changes size goes on returning the old size from layout |
| RenderTree.RenderObject.StaleRow | libs/rMlib/include/UI/Flex.h:46-60 | a row whose weights change so that an allocation changes keeps, and would draw with, the old size of that child |
| RenderTree.RenderObject.UnmarkedFrame | libs/rMlib/include/UI/RenderObject.h:44-59 | any update that marks nothing is followed by a layout that changes neither size nor kept fields, whether or not they are right |
| RenderTree.RenderObject.PlaceChildren | libs/rMlib/include/UI/RenderObject.h:69-81 | the draw functions, from the kept fields alone, place every child where a layout from scratch would have it |
| RenderTree.RenderObject.Draw | libs/rMlib/include/UI/RenderObject.h:69-81 | drawing the cached tree gives every object the rectangle that layout and draw from scratch give it, of the size it remembers, and every widget's children have its margins and gaps |
| RenderTree.RenderObject.PlacedInPlace | libs/rMlib/include/UI/RenderObject.h:69-81 | in a drawn tree every object has the size it remembers, and the rectangles of its children have the margins and gaps of its widget |
| RenderTree.RenderObject.DoLayout | libs/rMlib/include/UI/RenderObject.h:258-262 | lays out every child under the constraints that layout from scratch would give it and combines their sizes |
| RenderTree.RenderObject.LayoutFlex | libs/rMlib/include/UI/Flex.h:130-200 | two passes over cached children give each Expanded child its constraints from the others' sizes, as from scratch |
| RenderTree.RenderObject.constructor | libs/rMlib/include/UI/RenderObject.h:281-294 | a new tree of objects renders the widget tree and is marked |
| RenderTree.RenderObject.Resize | libs/rMlib/include/UI/RenderObject.h:372-387 | surplus children are dropped, missing ones created and marked, the others kept |
| RenderTree.RenderObject.UpdateChildren | libs/rMlib/include/UI/RenderObject.h:370-392 | every kept child is updated to its new widget, every new one renders its widget; memory stays right where all size-changing differences are marked |
| RenderTree.RenderObject.Update | libs/rMlib/include/UI/Stack.h:20-30 | for any update the types allow: the object renders the new tree, its own mark is set iff it was or the source's rule sets it, marks are never lost, and none is set in the tree without such a reason; if all size-changing differences are marked, its memory stays right, or it is marked |
| RenderTree.RenderObject.Rebuild | libs/rMlib/include/UI/RenderObject.h:336-349 | for any update anywhere below: that subtree is replaced, and if its size-changing differences are marked the memory of every object above stays right, or it is marked |
| RenderTree.RenderObject.Step | libs/rMlib/include/UI/AppContext.h:133-161 | one frame, from rebuild to reset: the size is that of layout from scratch, no mark is left, and the next frame can start |
| RenderTree.RenderObject.StepAndDraw | libs/rMlib/include/UI/AppContext.h:133-161 | one frame with a draw of everything: all objects are placed as after a layout from scratch, with the sizes layout gave them, inside their parents, and with the margins and gaps of their widgets |
| RenderTree.RenderObject.Run | libs/rMlib/include/UI/AppContext.h:133-161 | over every run of frames all sizes are those of layouts from scratch |

## Left out

- Rounding of floating point: weights of rows and columns are real numbers with exact arithmetic. A zero total with a
  nonzero weight has no defined value in C++; the model allots nothing there.
- Widths of integers, except for the 8-, 16- and 32-bit registers of the waveform code and int32 on the wire.
- The loops over temperatures in readInitTable and readWaveformTable, whose 8-bit counter would never end for a count of
  255, and the global tables they fill: one temperature at a time is modelled.
- Reading waveform files, boot data and barcodes; the header's offsets are required to lie inside the file, which the
  source does not check.
- The pan-buffer generator: only an environment step that writes any lines with their flags and raises the last phase. Its
  waiting on the clear count is a premise of ClearingSparesPending.
- The contents of the init waveform while it runs, and the temperature measurement. Negative pan phases have no buffer.
- The display's ioctl calls: whether each pan, blank and unblank succeeds is a parameter of the step, and so is the slot
  that an init waveform leaves if its last pan fails. A failed unblank leaves the offset register as it was, since the
  source's own comment says that setting the offset there does not pan.
- Vsync.VsyncThread.StepWait: the timed wait is one repeatable step whose blanking decision is a parameter.
- Vsync.VsyncThread.StepWake: unblanking updates display and counters in one step.
- Thick lines (vendored code) and pixel formats; a canvas holds one int for every pixel.
- Framing: the other message types of the socket protocol, and file descriptors other than as a byte stream with a plan of
  short and failing transfers. Object bytes of a message are laid out as on the device (little-endian, 4-byte ints).
- Touch: pen and key devices; the coordinate transform is any function. Slot numbers are in range, since the source
  throws otherwise. HandleEvent reports slots in no particular order, as the source's hash set does.
- Timers: shared pointers are numbers in a store, callbacks are lists of additions and cancellations, and ties between
  equal trigger times are broken in one fixed way. Delays and repeats in callbacks are positive; the clock stands still
  during a sweep.
- Keyboard: key codes sent for a scancode, physical keys, dirty flags, drawing, and where on the screen a key lies; a
  press names its key.
- Launcher: process ids are identities that are never used twice, and paths are ranks, distinct for different files.
  Saved framebuffers, icons, locking, sleep and inactivity timers and screenshots are not modelled. Launches can fail in
  SwitchApp but not in Run.
- Drawing in the UI: draw marks, update regions and pixels; only rectangles are modelled.
- RenderTree.RenderObject.Draw: every object is marked for drawing; a draw that skips unmarked objects, which keep the
  rectangle of an earlier frame, is not modelled.
- RenderTree.RenderObject.StepAndDraw: a frame that draws everything, for the same reason.
- Widgets: Positioned, Blank, Transform, RoundBorder, dynamic, stateful and stateless widgets, gestures and navigators;
  a rebuild of the latter is an update of the subtree below them, as in Step.
- Font metrics: a text carries the size its font gives.
- RenderTree.RenderObject.DoLayout: the arithmetic that follows the children's layout is Combine; the loops that compute
  it for rows, columns and wraps are those of Flex.FlexRenderObject and Wrap.WrapRenderObject, which take their children as
  a layout function or as sizes.
- RenderTree.RenderObject.Update: objects of removed children are forgotten, not destroyed; colours are not part of a
  widget.
- Flex.FlexRenderObject.DoLayout: layoutNonFlex and layoutFlex differ only in the children they take, so they are one
  method called twice. The two overflow assertions are premises of the soundness results, not of the method.
- Flex.SpaceIsDivided: for whole weights, since it is false for fractional ones.
