# dynatac-core in Dafny

A model of the hardware-free core of the dynatac phone firmware, and proofs about it. Each part has the
form its source has: objects that change in place are classes whose methods are proved against a value
of their state, and the theorems are about those values over whole runs.

- **The call service** (`modem.dfy`, `call_manager.dfy`, `call_world.dfy`, `call_discipline.dfy`,
  `call_theorems.dfy`, `call_actions.dfy`, `call_liveness.dfy`). `CallManager` keeps a view of the modem's call list from hints, updates and
  queries. `CallWorld` puts it in an environment: a modem with its own true list, which it may take for
  a reply long before the reply is sent, a first-in first-out line of notices, loss of events, other
  users of the port, and a clock. The invariant of `CallTheorems` holds in every reachable world, and
  from it follow convergence although replies may be stale, the exact ways a call ends, and the request
  discipline.
- **The display** (`geometry.dfy`, `framebuffer.dfy`, `surface.dfy`, `kernel.dfy`,
  `kernel_refresh.dfy`). A framebuffer with
  a dirty box, a two-step flush that sends a tight rectangle, surfaces that clip, and the kernel's one
  request in flight. A panel is added that a successful flush overwrites and a failed one leaves
  arbitrary; the theorems say what it shows in every run.
- **Codecs** (`gsm7.dfy`, `base64.dfy`, `email.dfy`, `smtp.dfy`, `at_parser.dfy`, `tokenizer.dfy`).
  Septet packing (section 6.1.2.1 of 3GPP TS 23.038) and the GSM alphabet (section 6.2.1), base64
  (section 4 of RFC 4648), dot-stuffing (section 4.5.2 of RFC 5321) and the submission session, the AT
  line parser, and the shell tokenizer. Each is proved against an independent definition: the number
  the bits stand for, a decoder, a receiving server, a whole-stream parser, a grammar.
- **Step machines** (`power.dfy`, `service.dfy`, `service_runs.dfy`, `terminal.dfy`,
  `terminal_keys.dfy`). The timed power sequences, the service that orders them against requests, and
  the terminal's wrapping, viewport, keys and history.

`dafny verify dfyconfig.toml` checks everything.

## Where the code does not do what its words say

The model follows the code. In each case the failing input is a lemma, and the condition under which
the promise holds is proved.

- A tracked call that leaves the list "becomes `Ended` exactly once" (`call_manager.rs`, lines 36-37).
  With another call listed it never does: the next call is tracked at once and the end is not shown,
  `EndedCallNotShown`. The end is shown exactly when no call is listed afterwards: `AfterACallEnds`.
- "Forget what the panel shows: the next flush is full" (`framebuffer.rs`, line 140). A full flush that
  was already in flight and ends well makes the framebuffer forget the request:
  `InvalidateForgotten`. The promise can be relied on exactly when no full flush is in flight at the
  time: `InvalidateReliableExactlyWhen`. So "full refresh: a clean logo" and "full refresh: no
  lockscreen ghost" (`kernel.rs`, lines 237 and 243) hold, whatever follows the key, exactly when no
  full draw is in flight when it comes: `RefreshesInFullExactlyWhen`, and `NoFreshFull` for the run
  from every other state.
- Locking asks for the panel's drive voltages to go off as soon as nothing else is pending
  (`kernel.rs`, lines 101 and 238). If an idle power-off is in flight when the lock key comes, its
  response clears the request (line 139) and the kernel is locked and idle with the voltages on until
  the idle deadline: `LockDuringPowerOffStaysOn`, and `StaysOnFromBoot` for a run from boot. If the
  power-off fails, the kernel takes the panel as off and does not try again: `FailedPowerOffStaysOn`.
  Locking leaves the voltages off exactly when no power-off is in flight at the time and none fails
  afterwards: `LockTurnsOffExactlyWhen`.
- "A request submitted after `power_off` is refused" (`service.rs`, lines 5-7 and 51). Not after a
  second `power_on` in a row: if the second is running, requests are still taken at once
  (`SecondPowerOnBreaksPowerOff`); if it is still queued, they are refused at first and taken once it
  begins (`QueuedSecondOnBreaksPowerOff`). Every request after a power-off is refused exactly when no
  On that was asked for straight after another is still running or queued:
  `PowerOffRefusesExactlyWhen`.
- "Press PWRKEY, 1 s, release" (`power.rs`, lines 11-12). A press that comes late may be held for less
  (`LatePressMayBeShort`). From the moment of the press it is sure to be held for the whole pulse
  exactly when it was not late (`HeldInFullExactlyWhen`); in a run, it is short exactly when some tick
  comes when the release is due but the pulse is not over (`PulseLength`). The 3 s press of a
  switch-off is never late and never short.
- "Don't fail the send if the server is rude" (`email.rs`, line 222). A QUIT that cannot be written
  turns an accepted message into an error: `QuitFailureHidesAcceptance`, and `AcceptedYetError` for a
  server and a stream with which it happens. The message is accepted exactly when every exchange before
  QUIT goes well, and the result is then an error exactly when the stream refuses a write of QUIT:
  `ErrorAfterAcceptanceExactlyWhen`.
- Quoted regions "preserve all characters verbatim" (`shell.rs`, line 353). A backslash before any
  character is dropped (`BackslashIsDropped`): text without quotes stands for itself exactly when it
  has no backslash, `VerbatimExactlyWhen`.
- The message is recovered by a receiver exactly when no header value holds a CRLF: `Transparent`, and
  `HeaderBroken` for one that does.

## Model

| member | source | states |
|---|---|---|
| CallService.CallManager.GetStatus | core/src/modem/call_manager.rs:169-184 | the status shown is the one the tracked call's listed state calls for; the arm the source marks unreachable is `None`, and `StatusDefined` shows it never comes |
| CallService.CallManager.StartDial | core/src/modem/call_manager.rs:196-215 | refused busy before not ready, changing nothing; otherwise exactly one `ATD` is submitted and tracked without an index, and polling is due from now |
| CallService.CallManager.StartAnswer | core/src/modem/call_manager.rs:217-227 | accepted only for a call shown as incoming with the link up; which refusal is given otherwise, with nothing changed |
| CallService.CallManager.StartHangUp | core/src/modem/call_manager.rs:231-240 | accepted exactly when a call is tracked and the link is up |
| CallActions.HangUpIsSent | core/src/modem/call_manager.rs:231-254 | in every state of the invariant a hang-up is accepted if and only if a call is tracked and the link is up, and then an `AT+CHUP` is outstanding; refused, nothing changes |
| CallActions.AnswerIsSent | core/src/modem/call_manager.rs:217-254 | an answer is accepted if and only if the tracked call is listed as ringing or waiting and the link is up, and then an `ATA` is outstanding; which refusal otherwise |
| CallActions.DialIsSent | core/src/modem/call_manager.rs:196-215 | a dial is accepted if and only if no call is known and the link is up; then its `ATD` is outstanding under the id of the pending dial and shown as dialling |
| CallActions.StatusOfListed | core/src/modem/call_manager.rs:169-184 | the status of a listed call is that of its state, with the number known and the time it connected |
| CallActions.CallIsKept | core/src/modem/call_manager.rs:394-434 | as long as the tracked call has not ended its direction and index stay, a connect time stays, and a new one is now with the call connected |
| CallActions.PickedUpAsListed | core/src/modem/call_manager.rs:413-434 | a call picked up is the one of lowest index, with its direction, number and state |
| CallService.CallManager.Perform | core/src/modem/call_manager.rs:245-254 | submits and records the action only if no such action is in flight |
| CallService.CallManager.ChangeVolume | core/src/modem/call_manager.rs:257-262 | always remembered, and sent now exactly when the link is up |
| CallService.CallManager.DismissEnded | core/src/modem/call_manager.rs:192-194 | only the ended call is forgotten |
| CallService.CallManager.OnTick | core/src/modem/call_manager.rs:270-275 | a query is submitted exactly when none is in flight, one is due, and a call is tracked or the view is not known to be true |
| CallService.CallManager.HandleListed | core/src/modem/call_manager.rs:291-304 | a reply with a hint since is discarded and the list asked for again; a fresh list replaces the view; a failure leaves it unsynced |
| CallService.CallManager.HandleDialled | core/src/modem/call_manager.rs:305-315 | a dial that may have started waits for a list; one that failed or was not sent is given up at once |
| CallService.CallManager.HandleActed | core/src/modem/call_manager.rs:316-324 | the action is no longer in flight, and a hang-up or a failure asks for the list |
| CallService.CallManager.HandleCallUpdate | core/src/modem/call_manager.rs:330-341 | a voice update replaces the entry of its index in order, or removes it if disconnected, and marks a query in flight as stale |
| CallService.CallManager.HandleRestarted | core/src/modem/call_manager.rs:357-363 | no call survives a restart of the modem, the link is down, and the list is asked for |
| CallService.CallManager.HandleEvent | core/src/modem/call_manager.rs:327-373 | the whole new state for each event, the gain being sent again before the query on `Configured` |
| CallService.CallManager.HandleNotice | core/src/modem/call_manager.rs:277-282 | the whole new state of service and port for every notice |
| CallService.CallManager.RequestQuery | core/src/modem/call_manager.rs:375-381 | never a second query: one in flight is marked stale instead |
| CallService.CallManager.ReconcileTracked | core/src/modem/call_manager.rs:394-434 | the tracked call after a change of the list, composed of following it, picking up the next call, and refreshing what is shown |
| CallService.CallManager.EndTracked | core/src/modem/call_manager.rs:436-445 | an ended call leaves its direction, number and connected time, if it was ever connected |
| CallWorld.ReconcileEstablishes | core/src/modem/call_manager.rs:394-434 | from any coherent state reconciling restores the invariant: the tracked index is listed, a call without index has a dial pending and no outgoing call is listed, nothing tracked means nothing listed |
| CallWorld.UpdateMatchesTruth | core/src/modem/call_manager.rs:330-341 | a `+CLCC` update does to the view exactly what happened to the modem's list, filtering commuting with removal, insertion and sorting |
| CallWorld.LossExplained | core/src/modem/call_manager.rs:352-352 | replacing any run of events by `BytesLost` leaves the view and every list on its way accounted for: a list ahead of the loss is followed by a hint, one behind it will be discarded |
| CallWorld.StepKeepsView | core/src/modem/call_manager.rs:284-386 | with no query in flight the view is unsynced, or made true by the pending updates unless a hint is pending; with one, its reply is marked stale or will be by a pending notice ahead of it, or its list, whenever taken, is made true by what follows: kept by every step of service, modem and line |
| CallTheorems.StepKeepsInv | core/src/modem/call_manager.rs:11-47 | every step of the whole world keeps the call, view, request, reply, freshness and link invariants |
| CallTheorems.Safety | core/src/modem/call_manager.rs:11-47 | every reachable world satisfies them |
| CallTheorems.Convergence | core/src/modem/call_manager.rs:284-386 | in every reachable world with nothing pending and the view synced, the view is the live voice calls of the modem's true list, however old the lists replied were |
| CallTheorems.StaleListNeverShown | core/src/modem/call_manager.rs:15-19 | in every run, a list handed over that neither is the truth nor is made it by what waits behind it changes nothing shown and is asked for again |
| CallTheorems.StaleListArrives | core/src/modem/call_manager/tests.rs:343-363 | a run, for any live call, in which a list taken before the call ended is handed over after it, and the call stays ended |
| CallTheorems.ViewBecomesTrue | core/src/modem/call_manager.rs:270-304 | from every reachable world, handing over the waiting notices and at most six more uneventful steps lead to such a world |
| CallLiveness.EveryQuietRunConverges | core/src/modem/call_manager.rs:270-386 | in every continuation of every run in which no call changes, no event is lost and the user asks nothing of a call, whatever the replies are, the view is the modem's list once the waiting notices and then five lists asked for are handed over, and stays so |
| CallLiveness.UntrueViewIsAskedFor | core/src/modem/call_manager.rs:269-275 | until then, with any replies waiting, after the timer a query is in flight or one less than two seconds old |
| CallTheorems.FreshReplies | core/src/modem/call_manager.rs:291-304 | a list is applied if and only if its query was submitted after the latest hint and settled dial were handled; otherwise nothing shown changes and a new query is out |
| CallTheorems.DialEndsExactlyWhenGivenUp | core/src/modem/call_manager.rs:291-315 | a pending dial ends if and only if the modem restarted, its `ATD` failed or was not sent, or a fresh list after it settled shows no outgoing call |
| CallTheorems.CallEndsExactlyWhenGone | core/src/modem/call_manager.rs:394-445 | a listed call ends if and only if the modem restarted, its update says disconnected, or a fresh list does not have it |
| CallTheorems.AfterACallEnds | core/src/modem/call_manager.rs:413-445 | afterwards the lowest listed call is tracked, or none is listed and the ended call is shown with its connected time |
| CallTheorems.EndedCallNotShown | core/src/modem/call_manager.rs:33-37 | from boot, a call that ends while another waits is never shown as ended |
| CallTheorems.StatusDefined | core/src/modem/call_manager.rs:169-184 | in every run the unreachable arm is not reached, calls begun are calls ended plus the one tracked, and a call shown active has a connect time not after now |
| CallTheorems.OneOutstandingOfEach | core/src/modem/call_manager.rs:242-254 | in every run at most one list query, one answer and one hang-up are outstanding |
| CallTheorems.ActionsOnlyWhenLinked | core/src/modem/call_manager.rs:196-254 | a dial, answer or hang-up is submitted only by the user's step and only while the latest link event is `Configured` |
| CallTheorems.VolumeApplied | core/src/modem/call_manager.rs:256-262 | in every run, while the link is up the last gain sent since `Configured`, or the maximum, is the user's volume |
| CallTheorems.PolledOften | core/src/modem/call_manager.rs:269-275 | after the timer a tracked or unsynced view has a query in flight or one less than two seconds old |
| CallDiscipline.DoneKeepsRequests | core/src/modem/call_manager.rs:284-325 | the query, dial and actions recorded are exactly the open requests of their kind, kept by every reply |
| CallDiscipline.EventKeepsRequests | core/src/modem/call_manager.rs:327-373 | the same, kept by every event |
| Geometry.IntersectIsIntersection | core/src/geometry.rs:63-69 | a pixel is in the intersection if and only if it is in both rectangles, saturation included, and it is empty if and only if they share no pixel |
| Geometry.OffsetIsTranslation | core/src/geometry.rs:73-75 | every pixel below the coordinate limit moves with the rectangle, even where its far corner saturates |
| Framebuffers.FrameBuffer.BeginFlush | core/src/framebuffer.rs:103-119 | full when the panel is unknown; otherwise nothing if the dirty box holds no change, else the tight rectangle with the bytes `desired` has in it; the whole new state |
| Framebuffers.FrameBuffer.FinishFlush | core/src/framebuffer.rs:122-138 | success applies what was sent to `committed`, failure forgets the panel; nothing without a flush in flight |
| Framebuffers.FrameBuffer.ChangedWithin | core/src/framebuffer.rs:158-174 | `None` only without a change in the box; else byte-aligned, within the box, holding every change, with a change in each edge row and column |
| Framebuffers.FrameBuffer.WriteCommitted | core/src/framebuffer.rs:176-183 | `committed` is patched with the rectangle's rows |
| Framebuffers.FrameBuffer.ExtractRegion | core/src/framebuffer.rs:349-358 | the bytes are the rectangle's, row by row |
| Framebuffers.WriteExtracted | core/src/framebuffer.rs:176-183 | writing what was extracted copies exactly the rectangle and no other byte |
| Framebuffers.FlushIsFullCopy | core/src/framebuffer.rs:103-138 | whichever kind of flush begins, applying it makes the whole committed picture equal to the desired one |
| Framebuffers.FlushOnlyWhenDifferent | core/src/framebuffer.rs:103-119 | with the panel known, a flush begins if and only if the two pictures differ |
| Framebuffers.StepKeeps | core/src/framebuffer.rs:103-149 | every change not yet promised to the panel is in the dirty box, and what is believed known is on the panel: kept by drawing, flushing, failing and invalidating |
| Framebuffers.AlwaysCoherent | core/src/framebuffer.rs:9-27 | in every run, `known` implies that `committed` is what the panel shows, and with nothing to flush the panel shows `desired` |
| Framebuffers.InvalidateLasts | core/src/framebuffer.rs:131-144 | after `invalidate` the next flush is full if and only if no full flush ended well in between |
| Framebuffers.InvalidateReliableExactlyWhen | core/src/framebuffer.rs:140-144 | the promise holds whatever follows if and only if no full flush is in flight at the time |
| Framebuffers.InvalidateForgotten | core/src/framebuffer.rs:131-144 | an input on which the next flush is not full |
| Framebuffers.FrameBuffer.SetPixel | core/src/framebuffer.rs:319-327 | exactly that pixel gets the colour: of one byte the binary digit of its place is written and the other seven kept, and no other byte changes |
| Framebuffers.BlackIsZeroDigit | core/src/framebuffer.rs:319-327 | a pixel is black if and only if its byte has a 0 at its place, the leftmost of eight pixels being the most significant digit |
| Framebuffers.BlankIsWhite | core/src/framebuffer.rs:92-100 | at first no pixel is black |
| Framebuffers.FrameBuffer.MarkDirtyUnaligned | core/src/framebuffer.rs:330-347 | the dirty box becomes the join with the span widened to whole bytes |
| Framebuffers.WidenedIsSmallest | core/src/framebuffer.rs:329-335 | the span so widened has exactly the bytes of its pixels |
| Framebuffers.FrameBuffer.FillRect | core/src/framebuffer.rs:251-263 | exactly the rectangle's pixels on screen get the colour, and the dirty box is the join with the rectangle's part on screen, widened to bytes |
| Framebuffers.FrameBuffer.DrawGlyphClipped | core/src/framebuffer.rs:207-229 | exactly the cell's pixels inside the clip and the screen get ink or background, for any bit matrix, and the dirty box is the join with that area, widened to bytes |
| Framebuffers.MarkedCovers | core/src/framebuffer.rs:329-347 | the byte of every pixel drawn, changed or not, is in the dirty box so joined, with all that was in it before |
| Framebuffers.FrameBuffer.ClearAllDesired | core/src/framebuffer.rs:267-270 | the desired picture is white and the dirty box is the join with the whole screen |
| Surfaces.Surface.constructor | core/src/surface.rs:29-31 | the surface's pixels are those of the rectangle that are on screen |
| Surfaces.Surface.Sub | core/src/surface.rs:48-51 | the sub-surface's pixels are those of the translated rectangle inside this surface |
| Surfaces.Surface.Fill | core/src/surface.rs:54-59 | exactly the pixels of the local rectangle inside the surface get the ink, and the dirty box is the join with them |
| Surfaces.Surface.DrawGlyph | core/src/surface.rs:73-78 | exactly the pixels of the local cell inside the surface get the glyph, and the dirty box is the join with them |
| Surfaces.Surface.DrawText | core/src/surface.rs:83-93 | one cell per character until the first that does not fit, each pixel coloured by the last cell over it, the dirty box the join with every cell, and the x past the last cell |
| Surfaces.CellsAdvance | core/src/surface.rs:83-93 | the cells of a text are those of its first characters, each one font width right of the one before; all fit, and the next one would not |
| Surfaces.ToScreenIsLocal | core/src/surface.rs:96-98 | a pixel of the screen rectangle is a pixel of the local one inside the surface, whatever saturates |
| Surfaces.Surface.Draw | core/src/surface.rs:48-98 | for any script of fills, glyphs, texts and scripts on surfaces within: every pixel gets exactly the colour the script gives it, none outside the surface changes, and the dirty box is the join with everything drawn |
| Surfaces.TouchedIsDirty | core/src/surface.rs:48-98 | the byte of every pixel some operation of a script draws, changed or not, is in that dirty box |
| Surfaces.UntouchedKept | core/src/surface.rs:48-98 | a pixel no operation draws keeps its colour |
| Surfaces.ScriptContained | core/src/surface.rs:46-98 | no script, however nested, gives a pixel outside its surface another colour |
| KernelDisplay.DisplayService.Pump | core/src/kernel.rs:107-118 | at most one request, never with one in flight; a draw before a power-off, and a power-off only when asked for or idle long enough |
| KernelDisplay.DisplayService.OnResponse | core/src/kernel.rs:120-142 | a response with another id changes nothing; otherwise the flush ends, or the panel is taken as off |
| KernelDisplay.DisplayService.Idle | core/src/kernel.rs:144-146 | true exactly when nothing is in flight, to draw, or to power off |
| KernelDisplay.AnyDrawingMayFollow | core/src/kernel.rs:231-323 | unlocked, any drawing at all is a possible effect of a key or of output, and a key may ask for the power-off; locked, keys and output change nothing |
| KernelDisplay.DisplayProtocol | core/src/kernel.rs:106-150 | in every run at most one request is submitted and not answered, kernel, framebuffer and port agree on it, response ids match, an idle display shows `desired`, and while locked that is the lockscreen |
| KernelDisplay.IdlePowerOffAtDeadline | core/src/kernel.rs:107-150 | a deadline is set if and only if nothing is in flight and the panel is on, and with nothing to draw the pump sends the power-off if and only if it has passed |
| KernelDisplay.NothingForgotten | core/src/kernel.rs:144-219 | after every handled event a request is in flight, or the panel is right and a deadline still to come is set, or the panel is right and off unless a power-off failed |
| KernelDisplay.StepKeepsKernel | core/src/kernel.rs:199-323 | every event, key, response, redraw and passing of time keeps the kernel's invariant |
| KernelDisplay.LockedIdleIsOff | core/src/kernel.rs:235-240 | locked and idle, with no power-off in flight when the lock key came, the kernel takes the panel as off and the drive voltages are off unless the latest power-off failed |
| KernelDisplay.LockTurnsOffExactlyWhen | core/src/kernel.rs:235-240 | whatever follows the lock, idle means voltages off, if and only if no power-off was in flight at the lock and none may fail |
| KernelDisplay.FailedPowerOffStaysOn | core/src/kernel.rs:137-140 | from every other unlocked state, a locked run whose power-off fails and that ends idle with the voltages on |
| KernelDisplay.StaysOnFromBoot | core/src/kernel.rs:137-140 | a run from boot in which no power-off fails and that ends locked and idle with the voltages on |
| KernelDisplay.LockDuringPowerOffStaysOn | core/src/kernel.rs:137-140 | from every unlocked state with a power-off in flight, a run that ends locked and idle with the voltages on |
| KernelRefresh.RefreshesInFullExactlyWhen | core/src/kernel.rs:235-244 | after the lock key, locking or unlocking, every run without another that ends idle has drawn the panel in full by a request made since, if and only if no full draw was in flight at the key |
| KernelRefresh.NoFreshFull | core/src/framebuffer.rs:131-144 | from every state with a full draw in flight, a run from the lock key to idle without such a draw |
| Framebuffers.BeginsSomehow | core/src/framebuffer.rs:103-119 | every state has an outcome of `begin_flush`: around any changes there is a smallest whole-byte rectangle |
| Gsm7.Pack | core/src/modem/gsm7.rs:95-107 | exactly the ceiling of (fill + 7n)/8 octets, whose little-endian value is the sum of the septets shifted to their places, padding zero |
| Gsm7.SeptetIsDigit | core/src/modem/gsm7.rs:113-123 | each septet unpacked is the seven bits of the octets' value from its bit position on |
| Gsm7.UnpackLength | core/src/modem/gsm7.rs:111-125 | unpacking yields the lesser of what is asked for and the whole septets there are |
| Gsm7.UnpackPack | core/src/modem/gsm7.rs:95-125 | unpacking what was packed gives back all septets, for every fill |
| Gsm7.EncodedAsItself | core/src/modem/gsm7.rs:22-31 | line feed, carriage return, space, digits, letters and most punctuation are encoded as their own codes |
| Gsm7.EncodedElsewhere | core/src/modem/gsm7.rs:22-31 | the at sign, the dollar sign and the underscore are 0, 2 and 17 |
| Gsm7.EncodedWithEscape | core/src/modem/gsm7.rs:34-45 | form feed, circumflex, braces and backslash, each after the escape |
| Gsm7.EncodedWithEscapeToo | core/src/modem/gsm7.rs:34-45 | square brackets, tilde, bar and euro, each after the escape |
| Gsm7.EscapeDecoded | core/src/modem/gsm7.rs:81-90 | after an escape: the extension's character for the code, else a space for a second escape, else the plain character; a trailing escape is a space |
| Gsm7.Encode | core/src/modem/gsm7.rs:59-66 | the characters' septets in order, or `None` |
| Gsm7.EncodedLength | core/src/modem/gsm7.rs:57-71 | `None` exactly when a character is not in the alphabet; otherwise as many septets as the characters take one by one |
| Gsm7.Decode | core/src/modem/gsm7.rs:74-92 | defined on any octets: unknown escapes give the plain character, a double or trailing escape a space |
| Gsm7.DecodeEncode | core/src/modem/gsm7.rs:48-92 | decoding an encoded text gives back the text, for any consistent pair of tables |
| Gsm7.TextRoundTrip | core/src/modem/gsm7.rs:22-125 | with the GSM tables, encoding, packing after any fill, unpacking and decoding gives back the text |
| Base64.Encode | core/src/email.rs:102-131 | the text is the standard's encoding, padding included |
| Base64.CharsetIsStandard | core/src/email.rs:98-99 | each of the 64 table entries is the character the standard names for it |
| Base64.DecodeEncode | core/src/email.rs:102-131 | the standard's decoder, strict about padding, gives back the bytes |
| Emails.ToRfc5322 | core/src/email.rs:42-66 | the wire form is each header and body line, stuffed and ended by CRLF |
| Emails.ReceiveSent | core/src/email.rs:57-64 | a server that splits at CRLF, stops at a lone dot and drops one leading dot recovers the lines and stops exactly at the end marker, whatever follows |
| Emails.ReceiveBroken | core/src/email.rs:44-51 | if a line holds a CRLF it does not recover them |
| Emails.Transparent | core/src/email.rs:42-66 | so a message is recovered if and only if no header value holds a CRLF, whatever its body |
| Emails.ReceivedMessage | core/src/email.rs:42-66 | what the receiver gets are the six header lines and then one line for each LF-separated part of the body, equal to it but for one carriage return at its end |
| Emails.HeaderBroken | core/src/email.rs:44-51 | a message, its subject a CRLF, that is not recovered |
| Emails.SegmentsJoin | core/src/email.rs:57-58 | the body's segments joined by newlines are the body |
| Smtp.ReadReply | core/src/email.rs:231-250 | the code of a reply's last line, continuation lines read to the end, an error on a short, malformed or missing line |
| Smtp.CodeIsNumber | core/src/email.rs:236-243 | a line has a code if and only if it begins with the code's three digits, or a plus sign and two |
| Smtp.ReplyIsRead | core/src/email.rs:229-250 | a reply of any number of lines, all but the last with a hyphen after the code, is read to its end and no further and gives its code |
| Smtp.Send | core/src/email.rs:214-227 | the program does exactly what the table of nine exchanges and QUIT says, for every server and every failing write |
| Smtp.LogIn | core/src/email.rs:173-190 | the same for the greeting, EHLO and login part |
| Smtp.SessionTranscript | core/src/email.rs:213-227 | what was written is a prefix of one transcript, each write follows exactly the replies expected before it, and `Ok` if and only if the transcript is complete; `Ok` implies acceptance |
| Smtp.ErrorAfterAcceptanceExactlyWhen | core/src/email.rs:213-227 | the message is accepted if and only if every exchange before QUIT goes well, and accepted with an error if and only if then a write of QUIT fails |
| Smtp.PlanCodes | core/src/email.rs:173-220 | the nine reply codes that must be heard |
| Smtp.WhatIsSaid | core/src/email.rs:173-227 | the eighteen writes of a whole session |
| Smtp.PlanIsPaired | core/src/email.rs:178-190 | the two credential lines decode to the user name and the password |
| Smtp.QuitFailureHidesAcceptance | core/src/email.rs:222-224 | a QUIT that cannot be written gives an error after acceptance |
| Smtp.AcceptedYetError | core/src/email.rs:222-224 | for every account and message, a server and a stream with which that happens |
| AtParsing.AtParser.FeedBytes | core/src/modem/at.rs:43-68 | the events and the line begun are those of the byte-by-byte definition |
| AtParsing.ChunksDoNotMatter | core/src/modem/at.rs:10-10 | however the stream is cut into chunks, the events and the line begun are the same |
| AtParsing.FeedIsParse | core/src/modem/at.rs:43-68 | and they are those of a parser of the whole stream that cuts at terminators and strips prompts |
| AtParsing.CutAtLineEnds | core/src/modem/at.rs:11-13 | the stream is cut at every carriage return and line feed and nowhere else |
| AtParsing.CutRebuilds | core/src/modem/at.rs:46-53 | stretches, terminators and the tail make up the stream again |
| AtParsing.PromptsRebuild | core/src/modem/at.rs:54-64 | a stretch is its prompts and what is left, and what is left does not begin with a prompt |
| AtParsing.LinesAreGood | core/src/modem/at.rs:11-17 | every line emitted is non-empty, has no terminator in it and does not begin with a prompt |
| ShellTokens.Tokenize | core/src/shell.rs:359-401 | the outcome is that of the scanner over the line's characters |
| ShellTokens.WhitespaceIs | core/src/shell.rs:383-383 | white space is twenty-five characters, none of them an ASCII letter, digit or sign |
| ShellTokens.SpelledLineYieldsWords | core/src/shell.rs:349-358 | a line spelled by the grammar of spaces, bare characters and quoted regions yields one token for each maximal run without spaces |
| ShellTokens.UnclosedLineIsError | core/src/shell.rs:394-396 | a line whose last quote is never closed, a dangling backslash included, is an error |
| ShellTokens.Read | core/src/shell.rs:349-358 | every line has a reading in the grammar, closed or with a quote left open, that spells the line |
| ShellTokens.TokenizeIsGrammar | core/src/shell.rs:359-401 | so for every line the tokens are the words of its reading, and an error exactly when a quote is left open |
| ShellTokens.VerbatimExactlyWhen | core/src/shell.rs:353-355 | text without quotes stands for itself between quotes if and only if it has no backslash |
| ShellTokens.BackslashIsDropped | core/src/shell.rs:353-355 | a quoted backslash and `n` stand for `n` |
| ShellTokens.QuotingRoundTrip | core/src/shell.rs:351-358 | any tokens, quoted and joined by white space, come back |
| PowerSequencing.PowerSequencer.Tick | core/src/modem/power.rs:83-99 | the actions due and the new state, whatever is running and queued |
| PowerSequencing.NothingLostOrReordered | core/src/modem/power.rs:17-18 | in every run the steps done and still due are those of the sequences asked for, in order |
| PowerSequencing.OnTime | core/src/modem/power.rs:83-108 | in every run each step is done by the first tick that is not before it is due, and after a tick the next deadline is still to come |
| PowerSequencing.PressesAlternate | core/src/modem/power.rs:19-19 | in every run presses and releases alternate, and the button is released when nothing is due |
| PowerSequencing.PulseLength | core/src/modem/power.rs:11-14 | in every run a press is held for less than its pulse if and only if some tick comes when its release is due but the pulse is not over, for no time if and only if late by the pulse; a switch-off press is never late or short |
| PowerSequencing.HeldInFullExactlyWhen | core/src/modem/power.rs:11-14 | from a state of any run in which a press was the last step, every continuation holds it in full if and only if it was not late |
| PowerSequencing.LatePressMayBeShort | core/src/modem/power.rs:83-99 | a run whose press is 400 ms late: released at 1100 it was held 600 ms, released at 2000 it was held 1500 ms |
| PowerSequencing.DeadlineMakesProgress | core/src/modem/power.rs:102-112 | ticking before the deadline does nothing and at it leaves less to do; busy exactly when there is a deadline |
| PowerService.Service.RunPower | core/src/modem/service.rs:79-90 | due actions reach the pins and the layer below, each in order |
| ServiceRuns.PinsAreTheSequences | core/src/modem/service.rs:79-90 | in every run the pins handed out, and those due, are supply on, press, release for each On asked and press, release for each Off, in order |
| ServiceRuns.ButtonAlternates | core/src/modem/power.rs:19-19 | in every run the key pins handed out are pressed and released in turn, and as many of each when nothing is due |
| ServiceRuns.SwitchOnTimes | core/src/modem/power.rs:11-12 | from rest: supply on at once, pressed at 100 ms and not before, released at 1100 ms and not before, with the layer below told |
| ServiceRuns.SwitchOffTimes | core/src/modem/power.rs:13-14 | from rest: the layer below told first, pressed at once, released at 3000 ms and not before |
| ServiceRuns.RequestsAccountedFor | core/src/modem/service.rs:41-73 | in every run each request has an id of its own and was taken, waits or was refused, exactly one of these, and requests are taken in order |
| PowerService.Service.PowerOff | core/src/modem/service.rs:53-56 | the sequence is asked for and its due steps done in the same call, pins returned |
| PowerService.Service.Submit | core/src/modem/service.rs:41-43 | refused at once while the layer below is off, else waiting |
| PowerService.Service.Step | core/src/modem/service.rs:61-73 | power steps before and after serving the link, a wait from the second reading of the clock that never passes the next power step and is otherwise the longest allowed, and the link's write error handed on with the pins of both |
| PowerService.OnExactlyWhen | core/src/modem/service.rs:79-90 | in every run the layer below is on exactly when idle after an On, or during an On that follows an On |
| PowerService.OnWhenIdleAfterOn | core/src/modem/service.rs:4-9 | without two Ons in a row, exactly when idle after an On |
| PowerService.RefusedAfterSwitchOff | core/src/modem/service.rs:51-56 | then every request from a switch-off until the next switch-on is complete is refused |
| PowerService.PowerOffAtOnceExactlyWhen | core/src/modem/service.rs:51-56 | when power-off returns the layer below is off if and only if, with due steps done, it was off or nothing was running; of later requests see the next row |
| PowerService.PowerOffRefusesExactlyWhen | core/src/modem/service.rs:4-9 | every request in every continuation of time and requests is refused if and only if, with due steps done, no On asked for straight after another is running or queued |
| PowerService.QueuedSecondOnBreaksPowerOff | core/src/modem/service.rs:46-56 | two power-ons and a power-off at boot: requests are refused at once, and taken 1100 ms later |
| PowerService.SecondPowerOnBreaksPowerOff | core/src/modem/service.rs:46-56 | from any idle on-state, power-on then power-off leaves requests being taken |
| Terminals.Wrap | core/src/terminal.rs:324-340 | terminates and returns the rows of the wrapped text |
| Terminals.WrapIsFaithful | core/src/terminal.rs:324-340 | the rows make up the text again, all but the last are full, and an empty text is one empty row |
| Terminals.Terminal.WrappedOutput | core/src/terminal.rs:214-226 | every line of the scrollback wrapped on its own, in order |
| Terminals.Terminal.WrapInputLines | core/src/terminal.rs:234-255 | prompt, input lines and cursor wrapped line by line, nothing when hidden |
| Terminals.DecoratedIsOneText | core/src/terminal.rs:229-255 | they are the lines of prompt, input and cursor taken as one text |
| Terminals.SplitIsFaithful | core/src/terminal.rs:195-198 | lines pushed have no newline in them and make up the text again |
| Terminals.Terminal.HandleKey | core/src/terminal.rs:84-190 | the whole new state and the action for every key |
| TerminalKeys.AnswerOfKey | core/src/terminal.rs:34-42 | Enter hands out the line, scroll keys ask for a redraw, and any other key says nothing changed if and only if it changed nothing, leaving the view alone |
| TerminalKeys.NothingLeavesScreen | core/src/terminal.rs:37-41 | a key that says nothing visible changed leaves the screen as it was |
| TerminalKeys.CharGoesIn | core/src/terminal.rs:86-100 | the character goes in at the cursor, which moves past it; a soft Enter is a line feed |
| TerminalKeys.CancelClears | core/src/terminal.rs:128-132 | cancel on a typed line empties it and keeps the history |
| TerminalKeys.EnterEchoes | core/src/terminal.rs:143-165 | prompt and command are echoed below the output, one line for each of its own, and the view is at the bottom |
| TerminalKeys.DownUndoesUp | core/src/terminal.rs:166-178 | as many scroll-down keys as scroll-up keys lead back |
| TerminalKeys.InputIsOneText | core/src/terminal.rs:229-255 | shown, the input rows are those of prompt, line and underscore as one text; hidden, there are none and every row is output |
| Terminals.Terminal.PushOutput | core/src/terminal.rs:195-200 | the text's lines are added below and the scroll is at the bottom |
| Terminals.Terminal.ReplaceLastOutput | core/src/terminal.rs:205-211 | the last line is the text, whether or not there was one |
| Terminals.Terminal.Render | core/src/terminal.rs:273-320 | the cells are those of the screen whose rows are the scrolled window of the output above the last rows of the input |
| Terminals.RenderedCellsAreTheScreen | core/src/terminal.rs:273-320 | cells are in range, no two at one position, and are exactly the characters of the screen's rows |
| Terminals.ScrollUpShifts | core/src/terminal.rs:166-172 | scrolling up one shows each output row one lower and leaves the input |
| Terminals.EveryOutputRowCanBeSeen | core/src/terminal.rs:166-182 | from any view, scroll-bottom and some number of scroll-up keys show any given output row, unless the input fills the screen |
| Terminals.ScrollUpReaches | core/src/terminal.rs:166-172 | each scroll-up key moves the window by one row as long as the maximum allows |
| Terminals.HistoryIsWhatWasRun | core/src/terminal.rs:154-162 | over every run of keys the history is the newest 64 of the commands run, without empty ones and repeats, the cursor is at the end, and a position in history means the input is that entry |
| Terminals.CancelWalksBack | core/src/terminal.rs:101-133 | from an empty line, n cancels recall the command n before, stopping at the oldest |
| Terminals.TypedIsExecuted | core/src/terminal.rs:86-100 | what is typed, newlines included, is what Enter hands out |
| Terminals.BackspaceUndoes | core/src/terminal.rs:134-143 | backspace undoes the character typed before it |

## Left out

- The `device/` crate, the layers under the port (link, transport, request encoding, the simulator), Wi-Fi, HTTP, credentials, battery, charger, keymap, lists and prompts: plumbing, tables or easy members.
- The layer below absorbing a `+CLCC` into a reply; replies that list calls are taken to have unique, ascending indices, and a call to keep its mode while listed.
- A call index used again by a new call between two polls: the code cannot tell the two apart.
- Non-voice calls beyond the filter, and the order in which requests are carried out.
- 64-bit wrap-around of times and 8-bit call indices: times and indices are unbounded.
- FrameBuffer's older one-step interface (`clear`, `take_dirty_region`, `framebuffer.rs` lines 185-192 and 277-299) and its own `draw_text` and `draw_glyph`: the surface versions are modelled.
- `inset` and `split_top` of rectangles, and the glyph tables: a glyph is an arbitrary bit matrix.
- The kernel's shell and terminal: what a key draws is an arbitrary drawing, and a program may ask for the power-off; `Kernel` is a relation between values, its display a class.
- KernelDisplay.NothingForgotten: says nothing of the panel being off after a power-off request failed, because the code ignores that result.
- Geometry.OffsetIsTranslation: does not cover pixels at the coordinate limit 65535, where saturation shows; no surface reaches there.
- Text encodings: characters and bytes are not distinguished in SMTP and terminal texts (so a cursor moved by bytes over non-ASCII text is not captured), AT lines stay bytes instead of being decoded, and slicing a reply inside a multi-byte character is not modelled.
- The wording of error messages: a failed session is `false`.
- Terminals.RenderedCellsAreTheScreen: holds for screens of at most 256 columns and rows, the most that byte coordinates address; `Render` itself is modelled with the truncation.
- Terminals.Wrap: takes at least one column; the source does not terminate for zero columns and a non-empty text.
- Classification of AT lines, and what the tokens of a command line then do.
- PowerService: the layer below is only on or off with a queue; how a request taken is settled later is not modelled.
