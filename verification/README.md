# A verified model of parts of an RDP proxy

This project models the parts of the proxy that record a session, replay it, schedule its work and talk to its
neighbours, and proves what they are for. `dafny verify dfyconfig.toml` checks everything.

- **Session recording.** `WrmRecord`, `GraphicToFile` and `WrmImage` are the recorder, which writes typed chunks and
  starts a new file at every breakpoint; `WrmPlayer` and `FileToGraphic` are the player, which rebuilds the clock, the
  cursor cache, the keys and the drawings. `WrmSimulation`, `WrmSession` and `WrmRoundTrip` prove, over every run, that
  the player receives what was recorded, file by file and from bytes to bytes. `WireLayout` spells out the bytes of
  this and of the other formats, field by field.
- **Event scheduling.** `Events` is the event queue with its timers, descriptors, deferred deletion and two-way
  references; callbacks may do anything to the queue while a round goes on. `EventWorld` is the same queue as a value,
  which the objects refine, and `EventRules` what it promises: what a visit does, and how long a timer waits.
- **Video.** `VideoClock` is the frame clock and the recorder that snapshots and frame markers drive, `DrawingTracker`
  which drawings the frame of the video holds, and `VideoCropper` the cropped image buffer. `FrameDecimation` is the first pass
  over a recording, which decides which frames are drawn again, and `FrameRedraw` both passes together.
- **Access control.** `AclProtocol` and `AclSerializer` are the messages to and from the access control list, with a
  fixed buffer on either side and a transport that may cut the bytes anywhere.
- **Keyboard logging.** `Utf8`, `Utf8KbdBuffer`, `KeyboardMeta`, `SessionMeta` and `SessionLogKbd` are the ring, the
  editor with backspace and the masking of typed keys; `KeyNames` reads the logged text back, and `KeyboardRules` and
  `SessionLogRules` say when entries end and what the mask hides.
- **Formats.** `FontGlyph`, `FontFormat`, `FontData` and `FontGenerator` are the font files, from rendered pixels to
  the lookup of a code point, and `FontRules` what broken and cut files give; `Mwrm3` is the index of a recording,
  `Redis` the command that publishes an image.
- **Channels and windows.** `ChannelLists`, `ChannelsAuthorizations`, `AuthorizedChannels` and `ChannelOptions` decide
  which virtual channels a user gets, and `ChannelRules` says so of the lists alone; `RailAreas`, `RailDrag` and
  `ClientExecute` are the window frame and the drag protocol of remote applications.

`Bytes` and `WrmFormat` hold the integers and records that the formats are made of.

The objects that the program updates in place are classes here, each proved against a specification function
(`Step`, `Parse...`, `Play...`, `Load`); the theorems about whole runs and whole inputs are lemmas about those
functions.

## What the proofs show about the code

Some properties that one would expect hold only under a condition. In each case the code is modelled as it is, the
exact condition is proved; where an input that fails is not plain from the condition, a lemma or method gives one.

- The replayed real time is off by less than a microsecond unless the two clocks start on the same part of a
  microsecond (`ReplayedRealTime`, `RealTimeCanBeOff`).
- A change of the keyboard mask overtakes the keys that the recorder still buffers (`KeysComeFirst`).
- An event that is handed to a second reference leaves the first one pointing at a freed event (`NewRef`,
  `DanglingReference`).
- Fewer than 64 decimation flags are thrown away, and then every frame is decided to be drawn (`ComputeRegions`). The
  decisions put drawings off and forget none (`NothingIsLeft`), and yet the frame may lack a drawing: a snapshot empties
  the tracker when a frame is due, and after the first marker it prepares no image for drawings (`StepLoses`,
  `DrawingIsLost`). A later image may find what was lost, always in a video of a part of the screen
  (`FoundByAnyImage`), and otherwise if it goes down as far (`FoundIfCovered`). The frame holds every drawing if and only
  if everything lost was found again (`FrameHoldsAll`, `HeldUnlessMissing`).
- The image that a recording starts with never reaches the consumers of a player, whose constructor reads it; the images
  that later files start with do (`WholeSessionReplays`, `RestartPlays`).
- A question about an unknown name, sent by one side of the access control protocol, is misread by the other
  (`MessageRoundTrip`, `UnknownAskMisread`).
- Bit 11 of characters that take three bytes in UTF-8 is lost (`StandardUnlessBitLost`, `LostBitReadsBack`). Where the
  code and RFC 3629 differ, the model follows the code.
- The report of a forbidden pattern is too short when a character crossed the end of the ring (`LastChars`,
  `TooShortReport`).
- A font of more than 32 MiB of glyph data is not loaded (`FontRoundTrip`, `LargeFontIsNotLoaded`).
- A transferred file at the very end of the index, whose last name is short, is not read until more bytes follow
  (`Mwrm3.RoundTrip`).
- Denying a channel wins over allowing it, except behind a wildcard: one more name in the deny list never authorizes
  anything (`DenyingMore`), but a wildcard there makes a channel that both lists name authorized (`WildcardUndenies`).
- An enter or a tab ends the logged entry unless the key before it has just ended one or there was no room for it
  (`EnterEndsEntry`).
- A channel name that ends with a removed one is cut and sticks to the next (`RemoveName`, `RemoveGlues`); a sound
  input that is denied by name stays denied whatever the options are (`GrantedIffGiven`).
- A press outside of the window frame while a drag is prepared makes the proxy announce a drag without a type
  (`RunTyped`, `UntypedStart`). A press outside of it during a drag, and then a movement, reach the case of
  `move_resize_rect` that the code calls unreachable (`DragOfNothing`). Neither happens as long as the
  pressed part is not forgotten (`HeldIsSafe`), and `HeldUnlessSlips` says when it is.
- A window of the minimum size cannot be moved right or down (`TitleFollows`); the padding of the width may make it two
  columns narrower than the minimum (`MovesDoNotAdd`); and a window that is redrawn while it is dragged by its title
  moves by the whole distance once more at the release (`TitleMovesTwice`).

## Model

| member | source | states |
|---|---|---|
| `WrmRoundTrip.Replay` | src/capture/file_to_graphic.cpp:60-197 | For every recorder object, every legal run of its operations and every set of files it has written, the player object, its constructor included, reads the bytes of all files without an error, and its consumers have then received exactly the cursors, drawings, keys with their instants, keyboard masks, session updates, changes of window, images and last mouse position of the run, apart from what the recorder still buffers; the image that the recorder's constructor writes is read before there are consumers and reaches nobody |
| `WrmSession.SessionReplays` | src/capture/wrm_capture.hpp:360-380 | Simulation over every run of the recorder: replaying all files in order hands out what was recorded since, as one log of nine parts, the last place of the mouse included, keeps the player in step with the recorder, and neither the replay clock nor the instants of the keys go back |
| `WrmSession.WholeSessionReplays` | src/capture/file_to_graphic.cpp:60-76 | The same from the creation of the recorder and of the player, whose constructor reads until size and time are known; the first image is not received |
| `WrmSession.FilesReplayAlone` | src/capture/wrm_capture.hpp:360-380 | Every file that a breakpoint opens can be replayed by a fresh player that has read no other file, from its constructor on, and shows exactly the cursors shown while that file was written |
| `WrmSession.NothingUnset` | src/capture/wrm_capture.hpp:457-500 | With the previous row: a cursor referred to by index was always given before in the same file, over every run |
| `WrmSession.ReplayedRealTime` | src/capture/file_to_graphic.hpp:206 | At every point of every run the real time that the player reports differs by less than a microsecond from what the recorder assigns to the same instant, and is equal to it if and only if the two clocks started on the same part of a microsecond; the replay clock never passes the recording clock |
| `WrmSession.RealTimeCanBeOff` | src/capture/wrm_capture.hpp:203-217 | A recording whose replayed real time is off by what the cut to microseconds loses |
| `WrmSession.MappingOverRun` | src/capture/wrm_capture.hpp:368-370 | Over every run without update_times the instant-to-real-time mapping does not change, although every breakpoint rebases it |
| `WrmSession.MaskedKeysStaySecret` | src/capture/wrm_capture.hpp:742-752 | Two runs of operations that differ only in keys typed while the mask, by its last change, was on lead to the same recorder, all files to the last byte included |
| `WrmSession.RunTyped` | src/capture/wrm_capture.hpp:742-752 | The keys that a run records follow from its operations alone: a star for a key under the mask of the last change, the key itself otherwise, and nothing while 128 keys wait to be written |
| `WrmSession.RunMaskAndMouse` | src/capture/wrm_capture.hpp:220-224 | Over every run the mask and the place of the mouse are those of the last change |
| `WrmSession.StepPlays` | src/capture/wrm_capture.hpp:360-380 | After one more operation of the recorder, the files play without error to the player that this operation is meant to lead to, the opening of a new file included |
| `WrmSession.ThroughKeeps` | src/capture/wrm_capture.hpp:360-380 | Each operation adds for the player exactly what it was called with, and keeps the two in step |
| `WrmSession.StartsInStep` | src/capture/wrm_capture.hpp:371-379 | A player that starts at the file a breakpoint opens is in step with the recorder at once, cursors and clock included |
| `WrmSession.FilesGrow` | src/capture/wrm_capture.hpp:400-418 | A file only ever grows at its end; a breakpoint closes it and starts the next one |
| `WrmRecord.StepKeepsValid` | src/capture/wrm_capture.hpp:99-129 | Every operation keeps the recorder's invariant: batches that fit a chunk, at most one pending batch, keys within their buffer, and cached marks only for cursors the source has |
| `WrmRecord.StepKeepsMapping` | src/capture/wrm_capture.hpp:360-370 | Every operation but update_times leaves the real time of every instant as it was |
| `WrmRecord.BatchGrows` | src/core/RDP/RDPSerializer.hpp:209-240 | Reserving room before an order is added keeps every batch within 4096 orders and within the size of a chunk |
| `WrmRecord.KeyIsBuffered` | src/capture/wrm_capture.hpp:742-745 | A key is buffered as it is, or as a star under the mask, and a buffer of 128 keys keeps what it has |
| `WrmRecord.TimesAreUpdated` | src/capture/wrm_capture.hpp:195-201 | After update_times the given instant has the given real time, and all others follow from it |
| `WrmRecord.DrawingWaits` | src/core/RDP/RDPSerializer.hpp:209-240 | A drawing writes nothing if and only if the other batch is empty and its own is empty or has room, for at most 4096 drawings and 16384 bytes |
| `WrmRecord.CursorIsSentOnce` | src/capture/wrm_capture.hpp:458-479 | A cursor that the file has is sent in five bytes, one that it does not have in full, and from then on it has it |
| `WrmRecord.FileIsOpened` | src/capture/wrm_capture.hpp:371-379 | The file that a breakpoint opens holds the meta data, the saved state and the image that it was given, at their places |
| `WrmSimulation.OperationPlays` | src/capture/file_to_graphic.cpp:272-283 | The chunks of any one operation play without error on a player in step, with the effect stated for that operation |
| `WrmSimulation.NextAdvances` | src/capture/file_to_graphic.cpp:467-536 | That effect is what the operation was called with: nothing lost, repeated or reordered, the rest being what the recorder still buffers |
| `WrmSimulation.NextCore` | src/capture/file_to_graphic.cpp:467-475 | That effect keeps the player's clock, time mapping and cursor cache in step with the recorder's |
| `WrmSimulation.ClockAdvances` | src/capture/file_to_graphic.cpp:817-826 | The replay clock never goes back and never passes the recording clock, whatever the operation, for recorder times that do not go back |
| `WrmSimulation.KeysAdvance` | src/capture/wrm_capture.hpp:309-325 | Keys received plus keys still buffered grow by the typed key, in order |
| `WrmSimulation.KeysComeFirst` | src/capture/wrm_capture.hpp:502-547 | When a session update or a window change reaches the player, the keys typed before it have; a change of the keyboard mask overtakes them if and only if some are buffered |
| `WrmSimulation.DrawingsAdvance` | src/capture/wrm_capture.hpp:400-418 | Drawings received plus drawings still in a batch grow by the drawing, in order, across the two kinds of batches |
| `WrmSimulation.ShownAdvances` | src/capture/wrm_capture.hpp:457-500 | The player shows the cursor that the recorder was asked to show, by index or in full |
| `WrmSimulation.MouseAdvances` | src/capture/file_to_graphic.cpp:488-494 | Every operation that writes an instant or a cursor by number puts the player's mouse where the recorder's is, and no other moves it |
| `WrmSimulation.OpeningPlays` | src/capture/wrm_capture.hpp:371-379 | What a breakpoint writes in a new file plays on any player and leaves it with the recorder's clock and time mapping and the image |
| `WrmSimulation.RestartPlays` | src/capture/file_to_graphic.cpp:60-76 | For a new player the constructor stops after size and time, so that its consumers do receive the image of a file that a breakpoint opened |
| `WrmSimulation.KeysSent` | src/capture/wrm_capture.hpp:309-325 | The keys that an operation hands over are those buffered, all with the instant of the recording clock by then |
| `WrmSimulation.OrderKept` | src/capture/file_to_graphic.cpp:513-520 | The instants of the keys never go back and never pass the replay clock, whatever the operation |
| `WrmSimulation.OpenPlays` | src/capture/file_to_graphic.cpp:60-76 | What the constructor of the recorder writes is what the constructor of the player reads: it leaves the player with the recorder's clock and time mapping, its consumers attached and nothing received, the image included |
| `WrmSimulation.OpenHoldsImage` | src/capture/wrm_capture.hpp:132-168 | The first file does hold the image: a player that already has consumers receives it |
| `WrmSimulation.FlushPlays` | src/capture/wrm_capture.hpp:388-418 | Flushed batches are drawn one order at a time, the announced count of them |
| `WrmSimulation.ImagePlays` | src/capture/file_to_graphic.cpp:591-613 | The chunks of an image are delivered as the one image, in one interpretation, and change nothing else in the player |
| `WrmSimulation.TimestampPlays` | src/capture/file_to_graphic.cpp:477-536 | A timestamp chunk read back gives the instant, the mouse position and the pending keys, each with that instant |
| `WrmSimulation.NativePlays` | src/capture/file_to_graphic.cpp:766-787 | A cursor sent in full ends up in its cache slot, and is shown |
| `WrmSimulation.PointerPlays` | src/capture/file_to_graphic.cpp:714-743 | A cursor sent by index shows what the cache holds in that slot |
| `WrmSimulation.UpdatePlays` | src/capture/file_to_graphic.cpp:816-874 | A session update read back gives its instant, identifier and as many pairs as were kept; it moves the replay clock only forward |
| `WrmPlayer.PlayCountsSteps` | src/capture/file_to_graphic.cpp:192-194 | A file is interpreted max(1, count) times for each chunk, an image once for all its chunks; a count of zero means one interpretation |
| `WrmPlayer.ListenAppend` | src/capture/file_to_graphic.cpp:60-76 | A file that goes on after size and time are known is played on from there: the constructor does not look at what follows |
| `WrmPlayer.ImagesSkipped` | src/capture/file_to_graphic.cpp:602-611 | Before there are consumers, the chunks of an image are only counted |
| `WrmPlayer.Refused` | src/capture/file_to_graphic.cpp:272-283 | Which chunks make the player throw, type by type: how many bytes are needed, which cursor slots exist, what a drawing needs, and every unknown type |
| `WrmPlayer.OldCursorPlays` | src/capture/file_to_graphic.cpp:727-743 | A cursor of an old recording, of 32 by 32 points, is stored in its slot and shown with its hot spot and both masks |
| `WrmPlayer.DrawingsComeLater` | src/capture/file_to_graphic.cpp:272-283 | A drawing before size and time are known makes the constructor throw |
| `WrmPlayer.PlayAppend` | src/capture/file_to_graphic.cpp:71-76 | Playing two files in a row is playing the second one from where the first one ends |
| `WrmFormat.HeaderRoundTrip` | src/capture/wrm_meta_chunk.hpp:36-43 | The header of any chunk that fits, read back, gives its type, size and count, and what follows it is its payload |
| `WrmFormat.CursorRoundTrip` | src/capture/wrm_capture.hpp:420-455 | A cursor written in full is read back with its slot, size, hot spot and both masks, padding or not |
| `WrmFormat.KeysRoundTrip` | src/capture/wrm_capture.hpp:226-231 | Buffered keys are read back in order |
| `WrmFormat.KvsRoundTrip` | src/capture/wrm_capture.hpp:519-531 | The key and value pairs of a session update are read back in order |
| `WrmFormat.KeptKvsFit` | src/capture/wrm_capture.hpp:520-524 | The pairs that are kept fit the buffer, and one more would not |
| `WireLayout.ChunkBytes` | src/capture/wrm_meta_chunk.hpp:36-43 | The header byte by byte: type, size with the header, and count, each with its low byte first |
| `WireLayout.CursorBytes` | src/capture/wrm_capture.hpp:420-479 | The fields of a cursor in their order, sizes of the masks first and the XOR mask before the AND mask, or the mouse and the slot alone |
| `WireLayout.UpdateBytes` | src/capture/wrm_capture.hpp:502-539 | The fields of a session update in their order, with the widths of the lengths of key and value |
| `WrmImage.ImageChunksShape` | src/capture/wrm_capture.hpp:55-91 | An image of any size becomes PARTIAL chunks of exactly the maximum size and a LAST chunk that is not empty; their payloads are the image, and every header size and count fits its field |
| `WrmImage.ChunkedImageUnique` | src/capture/wrm_capture.hpp:55-91 | That shape determines the chunks: there is no other way to cut the image |
| `WrmImage.ImageTransport.Send` | src/capture/wrm_capture.hpp:79-90 | Sending adds the bytes to the image, in any number of pieces, and keeps the transport consistent with what it has sent and buffers |
| `WrmImage.ImageTransport.SendFull` | src/capture/wrm_capture.hpp:81-88 | The loop body sends a full PARTIAL chunk made of the buffered bytes and the next ones, and loses none |
| `WrmImage.ImageTransport.Flush` | src/capture/wrm_capture.hpp:70-76 | After any sequence of sends, a flush has written exactly the chunks of the image, and nothing is left |
| `WrmRoundTrip.RunReadable` | src/capture/file_to_graphic.cpp:151-186 | No run of the recorder writes a chunk that the player refuses: sizes fit its buffer, and partial images are always completed |
| `WrmRoundTrip.FilesBytes` | src/capture/wrm_capture.hpp:368 | The bytes of the files in order are the encoding of all chunks in order |
| `GraphicToFile.GraphicToFile.constructor` | src/capture/wrm_capture.hpp:132-168 | A new recorder is in the initial state, with its meta data, image and time written |
| `GraphicToFile.GraphicToFile.DrawOrder` | src/core/RDP/RDPSerializer.hpp:209-240 | Refines the specification step of an order: a bitmap batch is sent first, a full batch too, and the order is added |
| `GraphicToFile.GraphicToFile.DrawBitmap` | src/capture/wrm_capture.hpp:560-602 | Refines the step of a bitmap, with the same rule the other way round |
| `GraphicToFile.GraphicToFile.KbdInput` | src/capture/wrm_capture.hpp:742-745 | The object takes the step of a key; what that step is, `KeyIsBuffered` says |
| `GraphicToFile.GraphicToFile.EnableKbdInputMask` | src/capture/wrm_capture.hpp:747-752 | Refines the step of the keyboard mask: it is written and remembered |
| `GraphicToFile.GraphicToFile.MouseMove` | src/capture/wrm_capture.hpp:220-224 | Refines the step of a mouse movement; nothing is written |
| `GraphicToFile.GraphicToFile.Timestamp` | src/capture/wrm_capture.hpp:181-188 | Refines the step of the clock: pending drawings are sent before it moves |
| `GraphicToFile.GraphicToFile.UpdateTimes` | src/capture/wrm_capture.hpp:195-201 | Refines the step that sets the real time |
| `GraphicToFile.GraphicToFile.SendTimestamp` | src/capture/wrm_capture.hpp:309-325 | Refines the step that writes the instant and the pending keys, and empties their buffer |
| `GraphicToFile.GraphicToFile.PossibleActiveWindowChange` | src/capture/wrm_capture.hpp:541-547 | Refines the step of a window change: pending keys first |
| `GraphicToFile.GraphicToFile.WriteKvs` | src/capture/wrm_capture.hpp:519-531 | The loop over the pairs writes the longest prefix that fits, and counts it |
| `GraphicToFile.GraphicToFile.SessionUpdate` | src/capture/wrm_capture.hpp:502-539 | Refines the step of a session update: the clock only moves forward, pending keys first, pairs cut to the buffer |
| `GraphicToFile.GraphicToFile.NewPointer` | src/capture/wrm_capture.hpp:495-500 | Refines the step of a new cursor: sent in full and marked |
| `GraphicToFile.GraphicToFile.CachedPointer` | src/capture/wrm_capture.hpp:458-479 | Refines the step of a cached cursor: by index if this file already has it, in full otherwise |
| `GraphicToFile.GraphicToFile.CachedPredefinedPointer` | src/capture/wrm_capture.hpp:480-492 | Refines the step of a predefined cursor |
| `GraphicToFile.GraphicToFile.Breakpoint` | src/capture/wrm_capture.hpp:360-380 | Refines the step that closes a file and opens the next one: everything pending is written before, marks are forgotten, and the clock is rebased |
| `FileToGraphic.FileToGraphic.NextOrder` | src/capture/file_to_graphic.cpp:117-197 | Moves on inside a chunk or reads the next header and payload; fails on a batch that ends early, a size above 65536, missing bytes, and, where the source computes with a negative length, on a size below that of the header |
| `FileToGraphic.FileToGraphic.InterpretOrder` | src/capture/file_to_graphic.cpp:272-283 | One interpretation of the current chunk has the effect and consumes the bytes that the specification says, or fails where it does |
| `FileToGraphic.FileToGraphic.InterpretTimestamp` | src/capture/file_to_graphic.cpp:477-536 | The timestamp case, the loop that hands out keys included |
| `FileToGraphic.FileToGraphic.InterpretKeys` | src/capture/file_to_graphic.cpp:513-520 | Keys go out one by one, with the current instant, until the bytes of the chunk are used up |
| `FileToGraphic.FileToGraphic.InterpretPointer` | src/capture/file_to_graphic.cpp:714-743 | The pointer case, by index and with an old 32x32 cursor |
| `FileToGraphic.FileToGraphic.InterpretSessionUpdate` | src/capture/file_to_graphic.cpp:816-874 | The session update case |
| `FileToGraphic.FileToGraphic.InterpretImage` | src/capture/file_to_graphic.cpp:591-613 | Reads the rest of an image, up to its last chunk, and leaves the rest of the file |
| `FileToGraphic.FileToGraphic.Open` | src/capture/file_to_graphic.cpp:60-76 | The loop of the constructor ends where the specification says, with size and time known or at the end of the file, in the middle of a chunk too, or fails where it does |
| `FileToGraphic.FileToGraphic.PlayAll` | src/capture/file_to_graphic.cpp:71-76 | Reading the rest of a file order by order gives what its chunks mean, and fails exactly when they do |
| `FileToGraphic.FileToGraphic.PlayFile` | src/capture/file_to_graphic.cpp:60-114 | Constructor, consumers and the rest of a file together |
| `Events.EventManager.ExecuteEvents` | src/core/events.hpp:440-475 | A round with arbitrary callbacks, freeing included, leaves the queue, the references and the log of callbacks as the round on values does: every event of the start is visited once, in order; the callbacks are those of the visits, each event's at most once; events created meanwhile wait; as a multiset the queue loses only garbage, all that was garbage at the start included |
| `Events.EventManager.RunRound` | src/core/events.hpp:447-468 | The loop of the round makes the visits of the value model one after the other and says whether garbage was seen, while callbacks create, kill, arm, move and hand over events |
| `Events.EventManager.RunEvent` | src/core/events.hpp:451-467 | One event: what the object does is the visit of the value model, effects of the callback included; with an idle event nothing at all changes, no field of any event or reference |
| `Events.EventManager.Fire` | src/core/events.hpp:456-464 | Before its callback, an event whose descriptor is ready is due the grace delay from now, armed or not as before; one whose timer fires is disarmed; and nothing else changes |
| `Events.EventManager.View` | src/core/events.hpp:663-743 | Every state of the objects is one of the value model, in which no reference owns an event that is gone and no two own the same |
| `Events.EventManager.GarbageCollector` | src/core/events.hpp:477-489 | Frees exactly the garbage; what stays is the live events as a multiset, in the order of the value model, and no reference points at a freed event |
| `Events.EventManager.CollectAt` | src/core/events.hpp:481-487 | The inner loop: the last event takes the place of a freed one, which may be garbage again |
| `Events.EventManager.DeleteAt` | src/core/events.hpp:949-954 | Freeing an event clears the reference that owns it, and no other |
| `Events.EventManager.NextTimeout` | src/core/events.hpp:525-546 | Zero when no live event is armed, otherwise the least due time of the live armed events, reached by one of them |
| `Events.Event.TriggerTimer` | src/core/events.hpp:384-392 | A timer fires if and only if it is armed and due, and then once |
| `Events.EventManager.NewRef` | src/core/events.hpp:667-672 | Handing an event to a new reference keeps the two-way links if and only if nothing owned the event |
| `Events.EventManager.MoveRef` | src/core/events.hpp:674-680 | Moving a reference keeps every link two-way and empties the source |
| `Events.EventManager.AssignRef` | src/core/events.hpp:685-697 | Assigning an event makes the previous one garbage, no other, and keeps every link two-way if and only if nothing owned the new one |
| `Events.EventManager.MoveAssignRef` | src/core/events.hpp:699-713 | Move assignment makes the previous event garbage, no other, takes over the link of the source and keeps every link two-way |
| `Events.EventManager.ReleaseRef` | src/core/events.hpp:736-743 | Letting go makes the owned event garbage and keeps every link two-way |
| `Events.EventManager.DestroyRef` | src/core/events.hpp:715-721 | A destroyed reference leaves its event garbage and unowned |
| `Events.EventManager.EndOfLifespan` | src/core/events.hpp:130-138 | Every event of the lifespan becomes garbage, and no other |
| `Events.EventManager.Callback` | src/core/events.hpp:458-464 | Any sequence of effects does to events and references what the value model says, and keeps the queue and its two-way links consistent |
| `Events.DanglingReference` | src/core/events.hpp:667-672 | An event handed to a second reference leaves the first one pointing at a freed event after a collection |
| `Events.LiveSame` | src/core/events.hpp:477-489 | Two lists without repetition and with the same live elements are the same multiset, which is what swap-remove keeps |
| `EventRules.GraceHolds` | src/core/events.hpp:456-460 | Over any rounds: an event whose descriptor was ready, and that no callback arms again, does not time out before its grace delay is over, whatever else callbacks do to the queue |
| `EventRules.ReadyPostpones` | src/core/events.hpp:456-460 | A live event with a ready descriptor: due after the grace delay, armed or not as before, no other event changed, its action logged, and the callback works on that |
| `EventRules.DueFires` | src/core/events.hpp:384-392 | A live event that is not ready, armed and due: disarmed, no other event changed, its timeout logged |
| `EventRules.OthersRest` | src/core/events.hpp:451-467 | A visit to garbage, or to an event that is neither ready nor armed and due, changes nothing, whatever its callback would do |
| `EventRules.RoundRuns` | src/core/events.hpp:440-475 | A round logs at most one callback for each event it finds, in their order, and none for an event created meanwhile |
| `EventRules.NothingDue` | src/core/events.hpp:525-546 | As long as no live event is ready and none is due, a round changes nothing |
| `EventRules.GarbageIsFreed` | src/core/events.hpp:469-489 | What is garbage when a round begins is gone after it, with all other garbage, and no reference owns it |
| `EventRules.MadeGarbage` | src/core/events.hpp:685-743 | An event becomes garbage if and only if it is killed, its lifespan ends, or the reference that owns it lets go, is destroyed or takes another event |
| `EventWorld.FreedFrom` | src/core/events.hpp:477-489 | Freeing by swap-remove keeps exactly the live events, unchanged, and clears exactly the references to dead ones |
| `EventWorld.LogOfRound` | src/core/events.hpp:447-468 | The callbacks of a round are those that the state of each event at its own turn decides |
| `VideoClock.TicksDependOnLast` | src/capture/video_capture.cpp:362-478 | However often snapshots are taken, the frame clock only depends on the time of the last one |
| `VideoClock.FramesUnique` | src/capture/video_capture.cpp:362-478 | The closed form: the number of whole frames in a duration is the only one that leaves less than a frame over |
| `VideoClock.FramesAfter` | src/capture/video_capture.cpp:362-478 | Taking some whole frames first does not change how many there are in all |
| `VideoClock.VideoCaptureCtx.Snapshot` | src/capture/video_capture.cpp:362-478 | The loop ends and equals the closed form: index and clock advance by the same whole number of frames, the wait is more than zero and at most one frame, the numbers given to the encoder increase, and tracker and frame take their step: the tracker is emptied if and only if a frame was due, into an image or not, and the frame holds the rows of that image and of the seconds printed between the frames |
| `VideoClock.VideoCaptureCtx.AdvanceWithTimestamp` | src/capture/video_capture.cpp:429-448 | With timestamps, the loop in steps of a second advances as the closed form, the next second to print is the specified one, and it stays within a second and a frame of the clock |
| `VideoClock.VideoCaptureCtx.FrameMarkerEvent` | src/capture/video_capture.cpp:262-281 | A frame marker draws again on the decision of the first pass together with something tracked, or when the cursor has moved, and then does all that a snapshot does: the clock, and what the tracker, the images and the markers become |
| `VideoClock.VideoCaptureCtx.EncodingEndFrame` | src/capture/video_capture.cpp:283-293 | The last frame of a file comes as many frames after the others as fit the larger of 400 ms and one frame, whatever their length; the gaps between numbers stay below two seconds, and the clock is put back |
| `VideoClock.VideoCaptureCtx.NextVideo` | src/capture/video_capture.cpp:295-301 | A new file starts with frame one, which holds every drawing, and with the whole screen tracked |
| `VideoClock.VideoCaptureCtx.NextVideoImpl` | src/capture/video_capture.cpp:750-770 | A break keeps the clock; the finished file has strictly increasing frame numbers and ends with that last frame, and the next one starts at one with everything in its frame |
| `VideoCropper.VideoCropper.SetCropping` | src/capture/video_capture.cpp:115-146 | Only uncovered margins are cleared, and nothing outside the new crop is visible afterwards |
| `VideoCropper.VideoCropper.PrepareImageFrame` | src/capture/video_capture.cpp:148-170 | Afterwards the buffer shows the current crop of the drawable in its corner, and blank elsewhere |
| `VideoCropper.OneImage` | src/capture/video_capture.cpp:148-186 | What the buffer holds after a frame is prepared is a function of the drawable and the crop alone |
| `VideoCropper.LastCroppingDecides` | src/capture/video_capture.cpp:103-186 | After any sequence of croppings, frames and drawings, a frame is byte for byte the one of a recorder that only ever had the last cropping |
| `VideoClock.VideoCaptureCtx.UpdateImage` | src/capture/video_capture.cpp:362-410 | A due snapshot prepares an image for tracked drawings only before the first marker, for a moved cursor, and for a new second; without one no second is printed either |
| `VideoClock.VideoCaptureCtx.RedrawAtMarker` | src/capture/video_capture.cpp:262-281 | An image is prepared at a marker if and only if it is decided and something is tracked, or the cursor has moved |
| `VideoClock.VideoCaptureCtx.PrepareImage` | src/capture/video_recorder.cpp:609-634 | An image of a part of the screen covers all drawings; one of the whole screen goes down to what is tracked, to the cursor, and as far as the image before it was asked to |
| `VideoClock.VideoCaptureCtx.AdvanceToSecond` | src/capture/video_capture.cpp:429-448 | The loop body: a second is printed when it is reached, which covers the rows of the printed time, and frames up to the next one are encoded |
| `FrameDecimation.EveryDrawingIsFlagged` | src/capture/regions_capture.cpp:47-79 | With room for them, n frames give exactly n flags; every frame with something to show has a set flag at its own place or later; set flags fall in distinct intervals, show something new, and are not put off for a whole idle interval |
| `FrameDecimation.StepKeepsInv` | src/capture/regions_capture.cpp:47-65 | One frame marker keeps all of this for the flags so far, and where the clock of the intervals stands |
| `FrameDecimation.AfterKeepsInv` | src/capture/regions_capture.cpp:47-65 | So it holds after any frames, with or without room |
| `FrameDecimation.UpdatableFrameMarkerEnd.FrameEnd` | src/capture/regions_capture.cpp:47-65 | The object takes the specification step |
| `FrameDecimation.UpdatableFrameMarkerEnd.LastFrame` | src/capture/regions_capture.cpp:67-79 | The final flag is what was still waiting |
| `FrameDecimation.BitsetOutStream.Write` | src/utils/bitset_stream.hpp:65-69 | Setting one bit of a word appends one flag and changes no other |
| `FrameDecimation.BitsetInStream.Updatable` | src/capture/video_capture.cpp:262-268 | The k-th question is answered by the k-th flag, and by yes when there are none left |
| `FrameDecimation.ComputeRegions` | src/capture/regions_capture.cpp:240-254 | The words handed to the second pass hold all flags, except that fewer than 64 of them are thrown away |
| `FrameDecimation.NextDecision` | src/capture/video_capture.cpp:262-268 | Whatever was thrown away, the k-th marker is answered by the k-th decision of the first pass, or by yes |
| `FrameDecimation.EveryDrawingHasADecision` | src/capture/regions_capture.cpp:240-254 | Whatever the number of frames and the room, every frame with something to show is decided to be drawn at its own marker or a later one |
| `FrameRedraw.HeldUnlessMissing` | src/capture/video_capture.cpp:262-281 | Both passes together, for any frames and any snapshots between them: after the last marker the frame of the video holds every drawing, if and only if whatever a due snapshot, or due marker decided against, has dropped from the tracker without an image was covered by a later image that goes down as far |
| `FrameRedraw.NothingIsLeft` | src/capture/video_capture.cpp:262-281 | After the last marker nothing is tracked: decimation puts drawings off but never forgets one |
| `FrameRedraw.TrackedIsUnanswered` | src/capture/video_capture.cpp:262-281 | What is still tracked was drawn before some marker from which on every decision was no |
| `FrameRedraw.Record` | src/capture/regions_capture.cpp:101-257 | The same of the two passes as they run, with the flags in words, the reader of the flags, the clock, the seconds to print and the tracker of the video recorder: what the frame holds is a function of any drawings, frame ends and periodic snapshots, and it is everything under the same condition |
| `FrameRedraw.WhatIsSeen` | src/capture/video_capture.cpp:362-410 | A call finds the cursor moved if either coordinate has changed, a frame due when its length has passed since the clock, and a second to print when it is reached; the recorder then knows the new position, and otherwise keeps the old one |
| `FrameRedraw.DrawingIsLost` | src/capture/file_to_graphic.hpp:277 | A drawing and a due snapshot before its marker: at the end the frame does not hold it, although the first pass said yes at every marker, whatever its start, interval and room, and whatever the screen |
| `DrawingTracker.FrameHoldsAll` | src/capture/video_capture.cpp:362-478 | Over any run of drawings, markers and snapshots: the frame holds every drawing if and only if nothing is tracked, and for each step that lost something a later image goes down to its lowest row |
| `DrawingTracker.StepLoses` | src/capture/video_capture.cpp:466 | One step: tracked drawings leave without getting into the frame if and only if a frame is due and neither the decision or missing marker, nor the cursor, nor a new second asks for an image |
| `DrawingTracker.StepKeeps` | src/capture/video_recorder.cpp:609-647 | The invariant behind it: whatever the frame does not hold is tracked, or lost and no lower than the lowest row lost and not covered since |
| `DrawingTracker.FoundByAnyImage` | src/capture/video_recorder.cpp:624-634 | In a video of a part of the screen, any later image finds what was lost |
| `DrawingTracker.FoundIfCovered` | src/capture/video_recorder.cpp:609-622 | In one of the whole screen a later image finds what was lost if and only if it goes down as far: fifty lost rows, and an image for b rows |
| `AclProtocol.MessageRoundTrip` | src/acl/acl_serializer.cpp:203-252 | A message is taken back as sent, whatever follows, if and only if its values are at most one MiB and it only asks for known names |
| `AclProtocol.FieldRoundTrip` | src/acl/acl_serializer.cpp:93-143 | A field is taken back as sent, whatever follows |
| `AclProtocol.UnknownAskMisread` | src/acl/acl_serializer.cpp:237-247 | A question about an unknown name swallows the field after it |
| `AclProtocol.MessagesRoundTrip` | src/acl/acl_serializer.cpp:203-252 | Any number of messages in a row are taken back one by one |
| `AclProtocol.ParsedReadable` | src/acl/acl_serializer.cpp:203-252 | Whatever bytes come in, what is taken out of them is a readable message |
| `AclSerializer.Writer.PushAsk` | src/acl/acl_serializer.cpp:286-296 | Appends the question to what is sent or buffered, without overflow |
| `AclSerializer.Writer.PushValue` | src/acl/acl_serializer.cpp:298-319 | Appends the field to what is sent or buffered, without overflow, also when it is longer than the buffer |
| `AclSerializer.SendAclData` | src/acl/acl_serializer.cpp:342-383 | What is sent is the plain encoding of the message, and nothing when nothing changed |
| `AclSerializer.Reader.Read` | src/acl/acl_serializer.cpp:146-158 | However the transport cuts the bytes, enough of them are there afterwards unless the connection ends before, and none is lost |
| `AclSerializer.Reader.ReadKey` | src/acl/acl_serializer.cpp:93-103 | The type and the name of the next field, or the end of the connection exactly when they are not all there |
| `AclSerializer.Reader.ReadValue` | src/acl/acl_serializer.cpp:111-143 | The value as the parser of the whole byte string finds it, in any of the three ways it is read, or the same error |
| `AclSerializer.Reader.ReadField` | src/acl/acl_serializer.cpp:212-247 | One field as the parser finds it |
| `AclSerializer.Reader.ReadMessage` | src/acl/acl_serializer.cpp:210-248 | One message as the parser finds it |
| `AclSerializer.ReadAclFields` | src/acl/acl_serializer.cpp:203-252 | Returns the fields of one or more whole messages and leaves the rest in the transport, for every way of cutting the bytes; errors are those of the parser, at the message where it fails |
| `AclSerializer.Exchange` | src/acl/acl_serializer.cpp:203-252 | Messages through writer, transport and reader: the reader returns the fields of the first messages, never part of one, and the bytes of the others remain |
| `Utf8.StandardUnlessBitLost` | src/utils/utf.cpp:493-541 | The conversion agrees with section 3 of RFC 3629 if and only if the character does not have bit 11 in a three-byte encoding |
| `Utf8.LostBitReadsBack` | src/utils/utf.cpp:493-541 | Such a character reads back as the one without that bit |
| `Utf8.StandardRoundTrip` | src/utils/utf.cpp:493-541 | The standard encoding that it is compared with reads back as the character |
| `Utf8KbdBuffer.Utf8KbdBuffer.Push` | src/capture/capture.cpp:248-260 | The ring holds the end of everything pushed, for characters of any width, across its end |
| `Utf8KbdBuffer.Utf8KbdBuffer.LastChars` | src/capture/capture.cpp:262-274 | The report is the end of the typed text, as long as asked and kept, if and only if the counted length has noticed that the ring went round |
| `Utf8KbdBuffer.TooShortReport` | src/capture/capture.cpp:248-274 | A character across the end of the first round makes the next report too short |
| `KeyboardMeta.RunKeepsInv` | src/capture/capture.cpp:842-905 | Over every run the text fits its buffer, the erasable characters are the end of it, and under the mask the text is empty, so that the stars always fit |
| `KeyboardMeta.SendKbdKeepsInv` | src/capture/capture.cpp:1051-1064 | What is sent fits the buffer, stars included, and nothing is left |
| `KeyboardMeta.MaskedCharactersStaySecret` | src/capture/capture.cpp:892-905 | Two runs that differ only in characters typed under the mask, enter and tab aside, log the same |
| `KeyboardMeta.MaskedKeyLogsStars` | src/capture/capture.cpp:951-956 | A key under the mask adds nothing or eight stars to the log |
| `KeyboardMeta.KeyIsShown` | src/capture/capture.cpp:958-1000 | An unmasked key adds its text at the end of what is visible, or takes back the last erasable character and nothing else |
| `KeyboardMeta.NothingTypedIsLost` | src/capture/capture.cpp:892-905 | Without mask and backspace, log entries and buffer are the typed text, cut anywhere |
| `KeyboardMeta.BackspacesUndo` | src/capture/capture.cpp:970-976 | Characters of any widths and as many backspaces leave text, stack and log as they were |
| `KeyboardRules.MaskedTypingIsSecret` | src/capture/capture.cpp:892-905 | Two runs that differ only in characters typed while the mask, by its last change, was on leave the editor in the same state, log and buffer included |
| `KeyboardRules.RunFollows` | src/capture/capture.cpp:885-905 | Over every run mask, probe and time are those of the last change |
| `KeyboardRules.MaskedKeysShowStars` | src/capture/capture.cpp:951-956 | However many keys are typed under the mask, the entry that ends them is eight stars with their time |
| `KeyboardRules.Sends` | src/capture/capture.cpp:885-941 | A change of window or mask and the end send what was typed, once, with the time of the last event, and leave nothing |
| `KeyboardRules.SentIfFull` | src/capture/capture.cpp:958-1007 | A key is added while the text fits 506 bytes, and otherwise sends the text before it |
| `KeyboardRules.EnterEndsEntry` | src/capture/capture.cpp:1040-1049 | After an enter or a tab the text is empty if and only if it had room and the key before had not just ended an entry, and then the entry is the text with it |
| `KeyboardRules.EnterAfterKey` | src/capture/capture.cpp:1040-1049 | An enter or a tab after any other key ends the entry, if it has room in it |
| `KeyboardRules.MaskedEnterAfterKey` | src/capture/capture.cpp:1040-1049 | Under the mask it does so too, with eight stars |
| `KeyboardRules.TakenBackOrNot` | src/capture/capture.cpp:958-1000 | Characters and slashes can be taken back by a backspace; a named key cannot, nor what was typed before it |
| `KeyNames.TextTellsKeys` | src/capture/capture.cpp:149-238 | Two different sequences of keys never leave the same text: each special key has a text of its own |
| `KeyNames.KeyIsRead` | src/capture/capture.cpp:149-238 | Which text each key leaves, read back whatever follows: its name in brackets, a doubled slash, or its UTF-8 |
| `SessionMeta.SessionMeta.KbdInput` | src/capture/capture.cpp:892-905 | The stream and the array of sizes make the step of the editor |
| `SessionMeta.SessionMeta.WriteKeys` | src/capture/capture.cpp:958-1000 | Refines the writing of a key, with every index in bounds |
| `SessionMeta.SessionMeta.SendKbd` | src/capture/capture.cpp:1051-1064 | Refines the sending of an entry |
| `SessionMeta.SessionMeta.EnableKbdInputMask` | src/capture/capture.cpp:885-890 | Refines the change of the mask: what was typed before is sent |
| `SessionMeta.SessionMeta.PossibleActiveWindowChange` | src/capture/capture.cpp:938-941 | Refines the change of window |
| `SessionMeta.Session` | src/capture/capture.cpp:842-1065 | For every sequence of calls the log of the byte stream is the log of the abstract editor |
| `SessionLogKbd.RunKeepsInv` | src/capture/capture.cpp:343-436 | No entry is longer than the buffer, and stars never meet other text |
| `SessionLogKbd.MaskedKeysStaySecret` | src/capture/capture.cpp:355-366 | Two runs that differ only in keys typed under the mask log the same |
| `SessionLogKbd.MaskedKeysShowStars` | src/capture/capture.cpp:401-407 | A masked key logs nothing, and the next entry is eight stars alone |
| `SessionLogKbd.NothingTypedIsLost` | src/capture/capture.cpp:409-429 | Unmasked keys are logged in order, cut anywhere |
| `SessionLogRules.MaskedTypingIsSecret` | src/capture/capture.cpp:355-374 | Two runs that differ only in keys typed while the mask, by its last change, was on are the same to the log |
| `SessionLogRules.MaskedKeysAreOneEntry` | src/capture/capture.cpp:401-407 | However many keys are typed under the mask, they are one entry of eight stars, and none without a probe |
| `SessionLogRules.Reports` | src/capture/capture.cpp:368-399 | A change of window or mask and the end report what was typed, once |
| `SessionLogRules.ReportedIfFull` | src/capture/capture.cpp:409-429 | A key is added while the text fits 64 bytes, and otherwise reports the text before it |
| `SessionLogKbd.SessionLogKbd.KbdInput` | src/capture/capture.cpp:355-366 | The stream makes the step of the specification; nothing is cut off an entry |
| `SessionLogKbd.SessionLogKbd.FlushStream` | src/capture/capture.cpp:387-399 | Refines the flush, and the stars always fit |
| `SessionLogKbd.SessionLogKbd.EnableKbdInputMask` | src/capture/capture.cpp:368-374 | Refines the change of the mask |
| `FontFormat.EveryCodePoint` | src/core/font.hpp:228-237 | From the generator to the screen, for every code point: the generator's glyph, or the replacement glyph if it has none |
| `FontFormat.FontRoundTrip` | src/core/font.cpp:99-306 | Loading what the generator writes gives every glyph back, padded with zeros, if and only if the data is at most 32 MiB |
| `FontFormat.LargeFontIsNotLoaded` | src/core/font.cpp:99-306 | A valid font above 32 MiB, which the loader does not give back |
| `FontFormat.RandomRoundTrip` | src/core/font.cpp:272-301 | In the end the file and the announced length of the data are used up exactly |
| `FontFormat.SlotsRoundTrip` | src/core/font.cpp:260-270 | Glyphs of code points in a row are read back, with the replacement where there is none |
| `FontFormat.EntriesRoundTrip` | src/core/font.cpp:272-301 | Glyphs that carry their code point are read back, in increasing order |
| `FontFormat.GlyphRoundTrip` | src/core/font.cpp:198-229 | A glyph is read back with its signed offsets, size and rows |
| `FontFormat.HeaderRoundTrip` | src/core/font.cpp:147-178 | The header is read back |
| `FontGlyph.PackedPixel` | tools/font_generator.py:752-785 | Packing rows into bytes loses no pixel: the bit that the mask finds is the pixel |
| `FontGlyph.RenderedPixel` | tools/font_generator.py:765-781 | A packed pixel is set if and only if the bitmap has ink there |
| `FontGlyph.SerializeGlyph` | tools/font_generator.py:752-785 | The loop over rows, bytes and the padding of the last byte makes those packed rows |
| `FontGlyph.SerializeRow` | tools/font_generator.py:762-781 | One row of it, for any width |
| `FontData.Stream.Prepare` | src/core/font.cpp:117-140 | Enough bytes are in the buffer unless the file ends before, and none is lost or repeated |
| `FontData.Loader.ExtractGlyph` | src/core/font.cpp:198-229 | One glyph as the parser of the whole file finds it, stored aligned and without touching earlier ones, or the same failure |
| `FontData.Loader.ExtractSlots` | src/core/font.cpp:260-270 | The glyphs of code points in a row as the parser finds them, up to where the file breaks |
| `FontData.Loader.ExtractEntries` | src/core/font.cpp:272-301 | The other glyphs as the parser finds them, up to where the file breaks |
| `FontData.ReadHeader` | src/core/font.cpp:147-178 | The header, or failure exactly on a short file or another magic number |
| `FontData.FontData.Load` | src/core/font.cpp:99-306 | The constructor leaves what the parser makes of any file, broken ones included |
| `FontData.LowerBound` | src/core/font.cpp:40-50 | The binary search splits the code points into smaller ones and the others |
| `FontData.FontData.Item` | src/core/font.hpp:228-237 | The lookup finds what looking at every glyph would find |
| `FontData.FindAt` | src/core/font.cpp:40-50 | Binary and linear search agree |
| `FontGenerator.GlyphPixels` | tools/font_generator.py:807-844 | The pixels of a generated glyph are those that were rendered |
| `FontGenerator.Glyphs.Add` | tools/font_generator.py:807-848 | Adds exactly the bytes of the glyph, or the mark of a missing one, and counts its aligned data |
| `FontGenerator.Generate` | tools/font_generator.py:851-897 | The file of the whole generator is the encoding of a valid font, with the counts in its header |
| `FontRules.RenderedIsFound` | src/core/font.hpp:228-237 | From the rendered characters to the lookup: each is found by its own code point, or the replacement where it has no glyph |
| `FontRules.Metrics` | tools/font_generator.py:807-844 | Size, advance and offsets of a glyph follow from the box of its ink, with the special cases of size 14 |
| `FontRules.Heights` | src/core/font.cpp:147-178 | The line of a loaded font is as high as the generator said, while that fits 16 bits |
| `FontRules.NoFont` | src/core/font.cpp:147-178 | A short file or one of another kind leaves the built-in glyph, byte for byte, and nothing else |
| `FontRules.CutFile` | src/core/font.cpp:99-306 | Whatever file is cut wherever after its header: the glyphs that are loaded are the first ones of the whole file |
| `WireLayout.FontHeaderBytes` | tools/font_generator.py:851-897 | The fields of the header in their order and widths |
| `Mwrm3.RoundTrip` | src/capture/mwrm3.hpp:761-917 | Every packet, whatever follows, is read back with exactly that rest, if and only if enough bytes follow for the two that the groups of a transferred file's names ask for in advance |
| `Mwrm3.ProperPrefix` | src/capture/mwrm3.hpp:967-990 | No proper prefix of a packet is taken for a packet or for an error |
| `Mwrm3.CutShort` | src/capture/mwrm3.hpp:555-572 | Any bytes that hold a packet, cut anywhere before its end, ask for more data |
| `Mwrm3.ReadPacket` | src/capture/mwrm3.hpp:967-990 | The readers, group by group, find what the parser finds |
| `Mwrm3.ReadTfl` | src/capture/mwrm3.hpp:892-915 | The readers of a transferred file |
| `Mwrm3.ReadState` | src/capture/mwrm3.hpp:812-822 | The readers of a file state |
| `WireLayout.TransferBytes` | src/capture/mwrm3.hpp:852-890 | The fields of a transferred file in their order, and the bits that say which hashes follow, the direction and the status |
| `WireLayout.IndexBytes` | src/capture/mwrm3.hpp:761-811 | The bytes of the other packets of the index, field by field |
| `Redis.CommandRoundTrip` | src/capture/redis.cpp:96-128 | A server that follows the protocol reads the arguments of any command back, whatever bytes they are made of |
| `Redis.SetCommandBytes` | src/capture/redis.cpp:41-128 | Template, length, data and expiration put together are the five-argument SET command |
| `Redis.RedisCmdSet.constructor` | src/capture/redis.cpp:41-72 | Template, gap and separator are in place, with no data |
| `Redis.RedisCmdSet.Append` | src/capture/redis.cpp:86-89 | Adds to the data |
| `Redis.RedisCmdSet.Clear` | src/capture/redis.cpp:81-84 | Leaves no data, and all that does not change in place |
| `Redis.RedisCmdSet.BuildCommand` | src/capture/redis.cpp:96-128 | The view is the SET command of the current data; the copied header meets neither the template nor the separator nor the data, for every length of up to 20 digits |
| `Redis.SendImages` | src/capture/redis.cpp:74-128 | Any images in any pieces: the server sees one SET for each, with exactly its bytes |
| `ChannelLists.SplitJoin` | src/utils/sugar/split.hpp:34-80 | Joining names with commas and splitting again gives the names |
| `ChannelLists.RemoveName` | src/core/channels_authorizations.cpp:283-292 | Removing a name with its comma from the text of a list removes it from the list, if and only if no other name ends with it |
| `ChannelLists.RemoveEnd` | src/core/channels_authorizations.cpp:283-292 | Of a name that ends with the removed one, the end goes with the comma, whatever follows |
| `ChannelLists.RemoveGlues` | src/core/channels_authorizations.cpp:283-292 | A list in which such a name sticks to the next one |
| `ChannelsAuthorizations.NameIdInjective` | src/core/channel_names.hpp:31-65 | Two names have the same number if and only if they are the same up to case |
| `ChannelsAuthorizations.Extract` | src/core/channels_authorizations.cpp:104-134 | Finds the wildcard, the short and the long names of a list, blanks aside |
| `ChannelsAuthorizations.Normalize` | src/core/channels_authorizations.cpp:53-85 | Takes a channel out of the list and sets its features: all when it was there, the named ones otherwise |
| `ChannelsAuthorizations.Optimize` | src/core/channels_authorizations.cpp:178-184 | Sorting and dropping repetitions keeps exactly the names |
| `ChannelsAuthorizations.ChannelsAuthorizations.constructor` | src/core/channels_authorizations.cpp:97-193 | The object decides channels and features by the two lists as `ChannelsFollowLists` and `FeaturesFollowLists` spell out |
| `ChannelsAuthorizations.ChannelsFollowFeatures` | src/core/channels_authorizations.cpp:160-176 | Whatever the lists and their wildcards: the clipboard is open if and only if copying is one way or the other, device redirection if and only if a device or sound is, and sound if and only if device redirection is |
| `ChannelRules.ChannelsFollowLists` | src/core/channels_authorizations.cpp:195-206 | A channel without features: without a wildcard in the deny list, deny wins, and the wildcard of the allow list stands for all other names; with one, only what the allow list names is authorized |
| `ChannelRules.FeaturesFollowLists` | src/core/channels_authorizations.cpp:208-275 | A feature is granted if and only if the deny list names neither it nor its channel, and the allow list does, or has a wildcard where the deny list has none |
| `ChannelRules.DenyingMore` | src/core/channels_authorizations.cpp:97-206 | One more name in the deny list never authorizes a channel or a feature |
| `ChannelRules.WildcardUndenies` | src/core/channels_authorizations.cpp:195-206 | But a wildcard in the deny list does: a channel that both lists name is denied without it and authorized with it |
| `ChannelRules.CaseDoesNotMatter` | src/core/channels_authorizations.cpp:104-134 | Names that are the same up to case and blanks mean the same channel |
| `AuthorizedChannels.RemoveFrom` | src/core/channels_authorizations.cpp:283-292 | The loop over occurrences is the recursive removal, and reports whether it changed the text |
| `AuthorizedChannels.ComputeAuthorizedChannels` | src/core/channels_authorizations.cpp:277-361 | The rewritten lists are the original ones without every known name, with each feature added to the allow list if its option is found and to the deny list if not |
| `ChannelOptions.GrantedIffGiven` | src/core/channels_authorizations.cpp:277-361 | A feature is granted by the rewritten lists if and only if its option was given, whatever the original lists and wildcards; a sound input that was denied by name stays denied |
| `ChannelOptions.GivenIffNamed` | src/core/channels_authorizations.cpp:294-303 | Searching for an option in the text finds it if and only if it is named, a drive meaning both directions, although options are searched as parts of a text |
| `ChannelOptions.Authorize` | src/core/channels_authorizations.cpp:97-361 | End to end: from options and original lists to every feature and to the three channels |
| `ChannelOptions.OptionsByName` | src/core/channels_authorizations.cpp:294-361 | Which option, by its name, opens which feature, which single device and which channel |
| `RailDrag.MessagesAlternate` | src/RAIL/client_execute.cpp:1449-1464 | Over every run of mouse events, Start and End (sections 2.2.2.7.2 and 2.2.2.7.3 of [MS-RDPERP]) alternate, Start first, and each End has the type of its Start |
| `RailDrag.StepKeepsInv` | src/RAIL/client_execute.cpp:1468-1740 | A drag that was started is in the state of a drag, with the part it was started with and in a window that is not maximized, and initialize_move_size is never entered twice |
| `RailDrag.RunKeepsInv` | src/RAIL/client_execute.cpp:1468-1740 | The same over every run |
| `RailDrag.HeldUnlessSlips` | src/RAIL/client_execute.cpp:2569-2738 | The pressed part stays one that can be dragged if and only if there is no left button event outside of all parts during a drag that is prepared or going on, apart from its release |
| `RailDrag.RunTyped` | src/RAIL/client_execute.cpp:1446-1447 | Over every run, every Start and End has a type if and only if no first movement of a prepared drag came after the pressed part was forgotten |
| `RailDrag.StepTyped` | src/RAIL/client_execute.cpp:1657-1666 | One step: a message without a type is sent if and only if the guard of a Start holds with a forgotten part |
| `RailDrag.DragOfNothing` | src/RAIL/client_execute.cpp:1674-1686 | During any drag, a press outside of all parts and a movement reach the case of move_resize_rect that the code calls unreachable: the drag is over, and yet the mouse is still in its state |
| `RailDrag.TitleDragBegins` | src/RAIL/client_execute.cpp:1657-1672 | Two events that begin such a drag |
| `RailDrag.HeldIsSafe` | src/RAIL/client_execute.cpp:1657-1702 | Over every run in which the pressed part is not forgotten, every message has a type and every movement something to drag |
| `RailDrag.FullScreenIsNotDragged` | src/RAIL/client_execute.cpp:1657-1666 | Over every run, a maximized window is not being dragged |
| `RailDrag.MovesDoNotAdd` | src/RAIL/client_execute.cpp:1674-1702 | However often the mouse moves during a drag, the window is where the last movement alone brings it, with the sides that are not pressed in place, up to the padding of the width |
| `RailDrag.TitleMovesTwice` | src/RAIL/client_execute.cpp:1529-1582 | A window that is redrawn while it is dragged by its title is moved by the whole distance once more at the release |
| `RailDrag.UntypedStart` | src/RAIL/client_execute.cpp:1446-1447 | A press on the title, one outside and a movement send a Start without a type |
| `RailDrag.ButtonClick` | src/RAIL/client_execute.cpp:2690-2738 | A press and a release on the same button close, maximize, minimize or resize, each its own; a release on another part only puts the button out |
| `RailDrag.DoubleClick` | src/RAIL/client_execute.cpp:2602-2680 | Two presses within 400 ms: on the icon they close, on the title they maximize, on the top and bottom border vertically; later ones do nothing |
| `RailDrag.MovementCancels` | src/RAIL/client_execute.cpp:2575-2600 | A movement between the two presses makes them single ones |
| `RailDrag.ClosedBy` | src/RAIL/client_execute.cpp:1468-1740 | The window is closed by a click on its close button and by a double click on its icon, and by nothing else |
| `RailDrag.MaximizedBy` | src/RAIL/client_execute.cpp:1468-1740 | How every event changes whether the window is maximized: by the button, by the double clicks and by the end of a drag, and by nothing else |
| `RailDrag.MoveSizeTypeTellsSides` | src/RAIL/client_execute.cpp:1446-1464 | The type of a drag, as section 2.2.2.7.2 of [MS-RDPERP] numbers it, tells exactly the sides that the drag moves |
| `RailDrag.DraggedWidthIsCut` | src/RAIL/client_execute.cpp:1742-1746 | Every window that a drag sets is two columns wider than a multiple of four |
| `ClientExecute.MouseAction.NextMouseAction` | src/RAIL/client_execute.cpp:2550-2738 | The object takes the step of the state machine |
| `ClientExecute.ClientExecute.InputMouse` | src/RAIL/client_execute.cpp:1468-1740 | A mouse event takes the specification step and keeps the invariant |
| `ClientExecute.Session` | src/RAIL/client_execute.cpp:1468-1740 | Any mouse events, windows and settings: the messages alternate; all have a type if and only if no drag starts with a forgotten part, and the unreachable case stays so if and only if no movement drags one; both hold as long as the pressed part is not forgotten |
| `ClientExecute.ClientExecute.EndDrag` | src/RAIL/client_execute.cpp:1529-1582 | The end of a drag: the message, the state, and the window moved if it was held by its title |
| `ClientExecute.ClientExecute.DragWindow` | src/RAIL/client_execute.cpp:1674-1702 | A movement during a drag sets the window from the one saved at the start |
| `RailAreas.AreasPartition` | src/RAIL/client_execute.cpp:227-290 | In every window with room for the buttons and corners, the area of every point by its place: no gap in the frame and nothing outside; without a border, row 23 is in no area |
| `RailAreas.OnlyPressedSidesMove` | src/RAIL/client_execute.cpp:2428-2534 | A resized window keeps the minimum size and all sides that are not pressed |
| `RailAreas.PressedSideFollows` | src/RAIL/client_execute.cpp:2428-2534 | A pressed side follows the mouse and stops at the minimum; the middle of the top border follows the horizontal movement |
| `RailAreas.TitleFollows` | src/RAIL/client_execute.cpp:2509-2516 | A window moved by its title follows the mouse if and only if it is larger than the minimum by as much as it moves right and down |

## Left out

- WRM recording: compression, the contents of the meta data, of the saved state and of PNG images, and the encoding of
  single orders and bitmaps; these are opaque byte strings, and drawings are taken to delimit themselves.
- WRM recording: the callers' guarantees are preconditions: recorder times that do not go back, instants that fit 63
  bits, cursors that fit the cursor buffers, cache slots that the source has, and drawings that fit a chunk.
- WRM recording: the marks of the bitmap and glyph caches, the monitor layout and the window rectangle of a remote
  application; their chunks, and the old chunk types that the recorder no longer writes, are not part of this model.
- WRM replay: all consumers are attached together, right after the constructor, and stay; which log identifiers they ask
  for is a parameter. The image decoder is taken to read exactly the bytes of the image. The order of parts that go to
  different consumers is stated for an operation (`KeysComeFirst`) and not over runs.
- FileToGraphic.FileToGraphic.NextOrder: refuses a chunk whose size is below that of its header; the source subtracts
  the two without a test, and what it then receives is not part of this model.
- Events: what callbacks do is any sequence of effects on the queue and its references, which take only events that
  nothing owns; what the other case leads to, `DanglingReference` shows.
- Events: sockets and select; which descriptors are ready is a parameter. Names, verbose logging and the way actions
  are stored are left out.
- Video: encoding, pointer and timestamp tracing and thumbnails; of an image only its number and bytes, or the rows it
  covers, are kept, and the conversion of a row is taken to depend on that row alone. The frame is what the encoder is
  given when a frame is due; one that is prepared again before is not encoded in between.
- Video tracking: a drawing is its lowest row, below the upper edge of the screen, and drawings that are clipped to
  nothing are not drawings here. A change of the cropping tracks the whole screen, like a drawing of all of it.
  `FrameRedraw` is about one video file; `NextVideo` starts another.
- Video cropping: pixels are bytes of a drawable of three bytes a pixel, and timestamps are not traced on them.
- Frame decimation: a 64-bit word is a sequence of its bits; cropping regions and screen sizes are not part of it.
- Access control: keys and values are returned as copies, so views into the buffer that a later read overwrites are not
  captured; a field type other than a question mark is a value; configuration parsing and logging are left out.
- Keyboard: the format of a log line, its date, the other log identifiers and the search for patterns; the counter of
  hidden characters is unbounded here and an int there. The flush that the source makes when the stars do not fit
  (`src/capture/capture.cpp:401-407`) is shown never to be reached.
- Fonts: a regular file, of which one read returns all that fits; the header check asks for 58 bytes and the header has
  60, so files of 58 or 59 bytes are excluded. The character ranges are taken to cover the first row of code points
  without a gap and in increasing order, as the loader needs, and the counts to fit 32 bits. Rasterizing a font, which characters have a glyph, and the printed
  pictures of glyphs are left out; the tables of glyphs are sequences.
- Mwrm3: fields are returned as copies; packets that the index writer builds from files are not part of it.
- Redis: sockets, TLS and authentication; the buffer has a size that fits 64 bits.
- Channels: names are C strings of bytes.
- Windows: drawing, order fields, moving a window from the client side and the messages around a drag; coordinates are
  unbounded. Every mouse event brings the rectangle of the window that it finds, so that the rectangle of a maximized or
  restored window comes with the next event; a drag changes it from there.
- RailAreas.AreasPartition: requires that the window has room for its buttons and corners, which is less than the minimum
  size.
