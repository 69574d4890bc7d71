# Panops: a verified model of its cores

Panops records meetings on macOS and turns them into notes. Around its user interface
and its opaque libraries it holds several self-contained cores: a WebSocket transport
written by hand, a registry with two storage adapters, a compiler from JSON Schema to
guided generation, two protocols with child processes, the arithmetic of transcription
and diarization, two asynchronous state machines, YAML printing and the gate that
selects screenshots. This project models those cores in Dafny and proves what they are
for.

`dafny verify dfyconfig.toml` checks everything. Code that updates objects or loops over
buffers is modelled by classes and methods, each proved against a function on values;
the theorems are then about those functions, over every run. Code made of expressions
is modelled by functions. What the outside world does (bytes, chunks, faults, picks,
recogniser answers, distances between pictures) is a parameter or a list of steps and
stays arbitrary.

## What is where

| files | core |
|---|---|
| `WsFrame`, `WsStream` | RFC 6455 frames, and the incremental reader against a whole-stream parser |
| `Registry`, `RegistryRuns`, `RegistryListing`, `RegistryEffects` | the reference registry, its integrity over every run, its listings, and what each operation changes |
| `InMemoryStorage`, `RelationalStorage`, `RegistrySimulation` | both adapters, and their agreement on every sequence of operations |
| `JsonSchema`, `JsonSchemaSoundness`, `JsonSchemaComplete`, `JsonSchemaLimits`, `JsonSchemaOneOf`, `JsonSchemaUnread` | the schema compiler, its soundness, which schemas compile and which values they take, and where it is not sound |
| `SidecarRpc`, `CaptureSession`, `CaptureSteps` | request pairing over a pipe; the two-party capture session, and what each of its steps does |
| `EditDistance`, `Regions`, `Transcription`, `TranscriptionSteps`, `Diarization` | word error rate; region merging; splitting and stitching, and what is heard; speaker cleanup |
| `YamlPrinter`, `YamlReader`, `YamlRoundTrip`, `YamlNumbers`, `Frontmatter`, `FrontmatterRoundTrip` | frontmatter printing, and a reader written from YAML 1.2.2 |
| `EventStream`, `Preview`, `PreviewSteps` | event routing without lost wake-ups; preview streams across suspension points, and what each step does |
| `ChangeDetection`, `FileNames`, `Screenshots` | the screenshot gate, file names, collection |
| `Options`, `Numbers`, `Sorting`, `Decimals` | optional values, octets, stable sorting, string order, decimal numerals |

## Where the code does not do what one would expect

Each of these is a theorem, with a concrete input or with the exact condition under which
the expected property holds.

- A control frame inside a fragmented message makes the client drop the message,
  although section 5.4 of RFC 6455 permits it (`WsStream.FragmentedMessage`).
- The schema compiler lets wrong values through for enum or anyOf beside keywords that
  exclude some of their values, oneOf with overlapping branches, alternatives and type
  arrays that are empty, required names that are not declared, and bounds that lose by
  truncation (`JsonSchemaLimits`, `JsonSchemaOneOf`). It never looks at minimum, const,
  pattern, allOf and the other constraining keywords of the draft: such a keyword is kept
  only when the guide cannot violate it, whatever it means (`JsonSchemaUnread.UnreadSoundIff`),
  which for const, uniqueItems, minimum and minLength is read off the schema.
- In the other direction the compiled guide gives up, of the valid values, exactly null
  beside another type or alternative, undeclared members, values of another type where no
  type is given, and whole numbers that are not written as integers where a schema names
  integer and not number (`JsonSchemaComplete.Complete`).
- A duration of 2^63 or more is read back as 0 from SQLite, and the two storage adapters
  then differ (`RegistrySimulation.StepBoth`, `RegistrySimulation.WideDurationDiverges`).
- A stop that throws while the stream goes on leaves a recorder without a session; the
  next start runs a second one (`CaptureSession.RecorderCount`, `CaptureSession.TwoRecorders`),
  and starting the same meeting again can leave a recorder that the session map has
  forgotten (`CaptureSession.RestartOrphans`).
- The comment that the reserved-word and number tests cover every spelling of infinity
  misses `+.inf`; the plain pattern quotes it anyway (`YamlNumbers.NonStringsSeen`).
- The 64th terminal event buffered after another evicts it before its handler registers
  (`EventStream.DeliveredIffFewerThan64`).
- Exactly the preview restarts that are queued but have not begun survive a teardown or a
  rejection (`Preview.AdoptedLaterIff`, `Preview.QueuedRestartRevives`).
- Clearing a crop makes a display the target also when a window or an application is
  selected; the method itself does not check (`Preview.PickedTargetStaysIff`).
- Any step back in the frame times can keep two frames closer than the interval
  (`ChangeDetection.UnorderedTimes`).
- From 10^9 ms on, file names no longer sort in time order, and `%d` prints only 32 bits
  of the time (`FileNames.OrderedBelowIff`, `FileNames.NamesCollideIff`).

## Model

| member | source | states |
|---|---|---|
| `WsFrame.ParseHeader` | apps/Panops/Sources/Panops/IpcClient.swift:36-78 | octet by octet, the frame header of section 5.2 of RFC 6455: not enough bytes, a 64-bit length over 8 MiB refused, or flags, opcode, length, header size and mask offset |
| `WsFrame.ExtractPayload` | apps/Panops/Sources/Panops/IpcClient.swift:87-105 | nil exactly while the frame is incomplete; otherwise octet i of the payload is that of the frame or, when masked, has as each of its bits the sum modulo 2 of the bits of that octet and of key octet i mod 4 |
| `WsFrame.BuildTextFrame` | apps/Panops/Sources/Panops/IpcClient.swift:441-483 | octet by octet: FIN and opcode 1, the mask bit with the shortest length form that fits, the length in network order, the key, and the payload combined with it bit by bit |
| `WsFrame.XorIsBitwise` | apps/Panops/Sources/Panops/IpcClient.swift:95-101 | each bit of what two octets are combined to is the sum modulo 2 of their bits |
| `WsFrame.BitwiseSumUnique` | apps/Panops/Sources/Panops/IpcClient.swift:95-101 | and that determines it: no other octet has those bits |
| `WsFrame.HeaderByOctets` | apps/Panops/Sources/Panops/IpcClient.swift:36-78 | the header read off the octets, with the masks, widths and the limit as numbers |
| `WsFrame.PayloadByOctets` | apps/Panops/Sources/Panops/IpcClient.swift:87-105 | the payload read off the octets |
| `WsFrame.TextFrameByOctets` | apps/Panops/Sources/Panops/IpcClient.swift:441-483 | the frame of a text, octet by octet |
| `WsFrame.XorTwice` | apps/Panops/Sources/Panops/IpcClient.swift:95-101 | combining an octet twice with the same key octet gives it back |
| `WsFrame.MaskInvolution` | apps/Panops/Sources/Panops/IpcClient.swift:95-101 | masking is its own inverse on every payload and key (section 5.3) |
| `WsFrame.BytesRoundTrip` | apps/Panops/Sources/Panops/IpcClient.swift:45-63 | a length printed in network order reads back as itself, whatever the width |
| `WsFrame.ExtendedLength` | apps/Panops/Sources/Panops/IpcClient.swift:41-63 | the length octets of each of the three forms read back as the payload size and are exactly consumed |
| `WsFrame.HeaderRoundTrip` | apps/Panops/Sources/Panops/IpcClient.swift:36-83 | the header of any well-formed frame is recovered whatever follows it, or refused when a 64-bit length exceeds 8 MiB |
| `WsFrame.RoundTrip` | apps/Panops/Sources/Panops/IpcClient.swift:36-105 | for every frame, length form, key and trailing bytes, parsing recovers every field, the exact frame length and the payload |
| `WsFrame.TextFrameRoundTrip` | apps/Panops/Sources/Panops/IpcClient.swift:441-483 | what the client builds, it parses back to FIN, opcode 1, exact length and payload, if and only if the payload is at most 8 MiB |
| `WsStream.NextMessageIsFirst` | apps/Panops/Sources/Panops/IpcClient.swift:341-437 | the message one call waits for is the first message of the whole-stream parse, and what it leaves is the rest of that parse |
| `WsStream.HeaderStable` | apps/Panops/Sources/Panops/IpcClient.swift:36-78 | bytes that arrive later never change a header already decided |
| `WsStream.FrameStable` | apps/Panops/Sources/Panops/IpcClient.swift:81-105 | bytes that arrive later never change a frame already complete |
| `WsStream.ReadWsFrame` | apps/Panops/Sources/Panops/IpcClient.swift:341-437 | for every carried buffer and chunking, the returned message, the carried buffer and the unread chunks are exactly the whole-stream split; every turn consumes or waits, and the nil-payload branches are dead |
| `WsStream.ReadAll` | apps/Panops/Sources/Panops/IpcClient.swift:307-334 | repeated reads with the buffer handed over deliver the messages and the end of the whole-stream parser, however the bytes are chunked |
| `WsStream.FrameByOpcode` | apps/Panops/Sources/Panops/IpcClient.swift:370-397 | outside a message a frame with opcode 1 is a message or begins one, and any other frame contributes nothing |
| `WsStream.FrameInsideMessage` | apps/Panops/Sources/Panops/IpcClient.swift:370-435 | inside a message a frame with opcode 0 goes on or ends it, one with opcode 1 is skipped, and any other gives the message up |
| `WsStream.FragmentedMessage` | apps/Panops/Sources/Panops/IpcClient.swift:370-435 | a fragmented message arrives as the concatenation of its fragments if and only if no control frame was sent inside it; otherwise all of it is dropped |
| `WsStream.Orphaned` | apps/Panops/Sources/Panops/IpcClient.swift:398-435 | control and continuation frames outside a message contribute nothing |
| `WsStream.ConformingStream` | apps/Panops/Sources/Panops/IpcClient.swift:341-437 | on a conforming frame stream (text in one or several frames, other messages in one or several frames, control frames anywhere) the messages are those of section 5.4, minus the interrupted ones |
| `WsStream.PingInsideFragmentsLosesMessage` | apps/Panops/Sources/Panops/IpcClient.swift:426-435 | a concrete conforming stream, a ping between two fragments, whose message is lost |
| `WsStream.WireFrames` | apps/Panops/Sources/Panops/IpcClient.swift:36-105 | a stream of encoded frames splits back into those frames |
| `WsStream.PeerMessagesArrive` | apps/Panops/Sources/Panops/IpcClient.swift:341-437 | end to end: encoded by any peer, the items of a conforming stream are the messages the client delivers |
| `WsStream.BuiltIsRead` | apps/Panops/Sources/Panops/IpcClient.swift:307-483 | what the client builds from a payload it reads back as that one message, if the payload is at most 8 MiB, and otherwise the stream ends with a length error |
| `Registry.ComputeNextPosition` | crates/panops-core/src/conformance/fakes.rs:951-953 | one more than the greatest position, or 0 for none |
| `Registry.NextPositionAbove` | crates/panops-core/src/conformance/fakes.rs:951-953 | the next position lies above every position in use |
| `Registry.KeepsIntegrity` | crates/panops-core/src/conformance/fakes.rs:416-948 | every operation keeps referential integrity: references resolve, a meeting with a project is in its space, directories and tag names are unique, positions are distinct per scope |
| `Registry.CreateSpaceKeeps` | crates/panops-core/src/conformance/fakes.rs:712-724 | a new space gets a position no other space has |
| `Registry.CreateProjectKeeps` | crates/panops-core/src/conformance/fakes.rs:772-797 | a new project gets a position no other project of its space has |
| `Registry.CreateTagKeeps` | crates/panops-core/src/conformance/fakes.rs:841-854 | creating a tag keeps names unique: a taken name gives back the existing tag |
| `Registry.CreateMeetingWithNoteKeeps` | crates/panops-core/src/conformance/fakes.rs:448-510 | a meeting and its note are added together or not at all, and the note refers to the meeting |
| `RegistryRuns.RunIsSound` | crates/panops-core/src/conformance/fakes.rs:416-948 | in every run from empty, integrity holds and the spaces and projects left stand in the order in which they were created |
| `RegistryRuns.SpacesStable` | crates/panops-core/src/conformance/fakes.rs:712-770 | no operation moves a surviving space |
| `RegistryRuns.ProjectsStable` | crates/panops-core/src/conformance/fakes.rs:750-839 | no operation moves a surviving project |
| `RegistryRuns.SpaceListingIsCreationOrder` | crates/panops-core/src/conformance/fakes.rs:726-735 | after any run with any deletions, listing the spaces gives the survivors in creation order |
| `RegistryRuns.ProjectListingIsCreationOrder` | crates/panops-core/src/conformance/fakes.rs:799-814 | after any run, listing the projects of a space gives its survivors in creation order |
| `RegistryEffects.CreateMeetingDoes` | crates/panops-core/src/conformance/fakes.rs:416-446 | refused exactly on a taken id or directory; otherwise the meeting has the fields of the draft, no end and no duration, and everything else is as before |
| `RegistryEffects.CreateMeetingWithNoteDoes` | crates/panops-core/src/conformance/fakes.rs:448-510 | refused exactly on a taken meeting id, directory or note id or a note of another meeting; otherwise both are there with the fields of their drafts, and everything else is as before |
| `RegistryEffects.UpdateMeetingEndedDoes` | crates/panops-core/src/conformance/fakes.rs:582-599 | refused exactly for an unknown meeting; otherwise its end and duration are the new ones, its other fields and everything else as before |
| `RegistryEffects.RenameMeetingDoes` | crates/panops-core/src/conformance/fakes.rs:601-612 | refused exactly for an unknown meeting; otherwise its title is the new one, its other fields and everything else as before |
| `RegistryEffects.DeleteMeetingDoes` | crates/panops-core/src/conformance/fakes.rs:614-628 | refused exactly for an unknown meeting; otherwise the meeting, its notes, tag pairs and assignments are gone, and everything else is as before |
| `RegistryEffects.CreateNoteDoes` | crates/panops-core/src/conformance/fakes.rs:630-654 | refused exactly without its meeting or on a taken id; otherwise the note has the fields of the draft, and everything else is as before |
| `RegistryEffects.ReplaceMeetingNoteDoes` | crates/panops-core/src/conformance/fakes.rs:666-710 | refused exactly without the meeting, for a note of another meeting or on an id taken by one; otherwise the new note is the only note of the meeting, and everything else is as before |
| `RegistryEffects.CreateSpaceDoes` | crates/panops-core/src/conformance/fakes.rs:712-724 | the space is there with its name, at the least position above all others, or 0, and everything else is as before |
| `RegistryEffects.RenameSpaceDoes` | crates/panops-core/src/conformance/fakes.rs:737-748 | refused exactly for an unknown space; otherwise its name is the new one, its position and everything else as before |
| `RegistryEffects.DeleteSpaceDoes` | crates/panops-core/src/conformance/fakes.rs:750-770 | refused exactly for an unknown space; otherwise the space, its projects and exactly the assignments to it and them are gone, and everything else is as before |
| `RegistryEffects.CreateProjectDoes` | crates/panops-core/src/conformance/fakes.rs:772-797 | refused exactly without its space; otherwise the project is there with its name, at the least position above those of its space, or 0, and everything else is as before |
| `RegistryEffects.RenameProjectDoes` | crates/panops-core/src/conformance/fakes.rs:816-827 | refused exactly for an unknown project; otherwise its name is the new one, its space, position and everything else as before |
| `RegistryEffects.DeleteProjectDoes` | crates/panops-core/src/conformance/fakes.rs:829-839 | refused exactly for an unknown project; otherwise it and exactly the assignments to it are gone, the assignments to spaces and everything else as before |
| `RegistryEffects.CreateTagDoes` | crates/panops-core/src/conformance/fakes.rs:841-854 | a taken name answers the tag that has it and changes nothing; otherwise the tag is new, and everything else is as before |
| `RegistryEffects.DeleteTagDoes` | crates/panops-core/src/conformance/fakes.rs:863-875 | refused exactly for an unknown tag; otherwise the tag and exactly its pairs are gone, and everything else is as before |
| `RegistryEffects.TagMeetingDoes` | crates/panops-core/src/conformance/fakes.rs:877-887 | refused exactly for an unknown meeting or tag; otherwise the pair is there, the listing by that tag has that meeting, and every other pair, listing and everything else is as before |
| `RegistryEffects.UntagMeetingDoes` | crates/panops-core/src/conformance/fakes.rs:889-897 | refused exactly for an unknown meeting or tag; otherwise the pair is gone, the listing by that tag is without that meeting, and every other pair, listing and everything else is as before |
| `RegistryEffects.AssignMeetingDoes` | crates/panops-core/src/conformance/fakes.rs:914-948 | refused exactly for an unknown meeting, project, or space when no project is given; otherwise the meeting has the project and the space of the project, or only the space, or neither, and everything else is as before |
| `RegistryEffects.FilterAsks` | crates/panops-core/src/conformance/fakes.rs:534-561 | a filter lists a meeting if and only if it meets every part that is given: space, project, tag, and no space for the unsorted |
| `RegistryEffects.ListingShows` | crates/panops-core/src/conformance/fakes.rs:528-580 | each row shows the fields of its meeting, whether it has a note, its folders and exactly its tags; start times descend and no meeting comes twice |
| `RegistryEffects.ListingHas` | crates/panops-core/src/conformance/fakes.rs:528-580 | a meeting is in a listing if and only if it is there and the filter matches it |
| `RegistryListing.ListingsAgree` | crates/panops-core/src/conformance/fakes.rs:528-580 | two filtered listings of one registry hold the same rows and the same start time at each index |
| `RegistryListing.SummaryUnique` | crates/panops-core/src/conformance/fakes.rs:528-580 | a meeting has one summary: its fields, note flag, folders and sorted tag list are determined |
| `RegistryListing.ListSpaces` | crates/panops-core/src/conformance/fakes.rs:726-735 | all spaces, once each, by position and then by name |
| `RegistryListing.ListProjects` | crates/panops-core/src/conformance/fakes.rs:799-814 | all projects of one space, once each, by position and then by name |
| `InMemoryStorage.Store.CreateMeeting` | crates/panops-core/src/conformance/fakes.rs:416-446 | hand-kept maps: refused on a taken id or directory, and otherwise the new registry and meeting of the reference operation |
| `InMemoryStorage.Store.CreateMeetingWithNote` | crates/panops-core/src/conformance/fakes.rs:448-510 | hand-kept maps: all or nothing, against the reference operation |
| `InMemoryStorage.Store.UpdateMeetingEnded` | crates/panops-core/src/conformance/fakes.rs:582-599 | hand-kept maps: end and duration of one meeting change, nothing else |
| `InMemoryStorage.Store.RenameMeeting` | crates/panops-core/src/conformance/fakes.rs:601-612 | hand-kept maps: the title of one meeting changes, nothing else |
| `InMemoryStorage.Store.DeleteMeeting` | crates/panops-core/src/conformance/fakes.rs:614-628 | hand-kept maps: the meeting goes with its notes, tag pairs and assignment |
| `InMemoryStorage.Store.CreateNote` | crates/panops-core/src/conformance/fakes.rs:630-654 | hand-kept maps: refused without its meeting or on a taken id |
| `InMemoryStorage.Store.ReplaceMeetingNote` | crates/panops-core/src/conformance/fakes.rs:666-710 | hand-kept maps: afterwards the meeting has exactly the new note |
| `InMemoryStorage.Store.CreateSpace` | crates/panops-core/src/conformance/fakes.rs:712-724 | hand-kept maps: a fresh id and the next position |
| `InMemoryStorage.Store.RenameSpace` | crates/panops-core/src/conformance/fakes.rs:737-748 | hand-kept maps: the name of one space changes, nothing else |
| `InMemoryStorage.Store.DeleteSpace` | crates/panops-core/src/conformance/fakes.rs:750-770 | hand-kept maps: its projects go too, and every assignment to it or to them |
| `InMemoryStorage.Store.CreateProject` | crates/panops-core/src/conformance/fakes.rs:772-797 | hand-kept maps: refused without its space; a fresh id and the next position of that space |
| `InMemoryStorage.Store.RenameProject` | crates/panops-core/src/conformance/fakes.rs:816-827 | hand-kept maps: the name of one project changes, nothing else |
| `InMemoryStorage.Store.DeleteProject` | crates/panops-core/src/conformance/fakes.rs:829-839 | hand-kept maps: its assignments go, the meetings keep their space |
| `InMemoryStorage.Store.CreateTag` | crates/panops-core/src/conformance/fakes.rs:841-854 | hand-kept maps: the tag of that name, new or not |
| `InMemoryStorage.Store.DeleteTag` | crates/panops-core/src/conformance/fakes.rs:863-875 | hand-kept maps: its pairs go from every meeting |
| `InMemoryStorage.Store.TagMeeting` | crates/panops-core/src/conformance/fakes.rs:877-887 | hand-kept maps: the pair is there, once |
| `InMemoryStorage.Store.UntagMeeting` | crates/panops-core/src/conformance/fakes.rs:889-897 | hand-kept maps: the pair is gone |
| `InMemoryStorage.Store.AssignMeeting` | crates/panops-core/src/conformance/fakes.rs:914-948 | hand-kept maps: a project brings its own space and the space argument is then ignored; an unknown meeting, project or space is refused |
| `InMemoryStorage.Store.DeleteProjectsOf` | crates/panops-core/src/conformance/fakes.rs:758-767 | exactly the projects of that space go, and the assignments to them |
| `InMemoryStorage.Store.SetAssignment` | crates/panops-core/src/conformance/fakes.rs:977-999 | both assignment maps take the given values, absent meaning removed |
| `InMemoryStorage.Store.ClearSpaceAssignments` | crates/panops-core/src/conformance/fakes.rs:1001-1011 | exactly the meetings of that space lose it |
| `InMemoryStorage.Store.ClearProjectAssignments` | crates/panops-core/src/conformance/fakes.rs:1013-1023 | exactly the meetings of that project lose it |
| `InMemoryStorage.Store.ListMeetingsFiltered` | crates/panops-core/src/conformance/fakes.rs:528-580 | the summaries of exactly the matching meetings, newest first |
| `InMemoryStorage.NextIsFresh` | crates/panops-core/src/conformance/fakes.rs:712-724 | a counter id has never been used in the run |
| `InMemoryStorage.RetainSorted` | crates/panops-core/src/conformance/fakes.rs:889-897 | removing a tag keeps a tag list sorted and free of duplicates |
| `InMemoryStorage.ListPushed` | crates/panops-core/src/conformance/fakes.rs:877-887 | pushing and sorting keeps a tag list sorted and free of duplicates |
| `RelationalStorage.Database.CreateMeeting` | crates/panops-portable/src/rusqlite_storage.rs:255-283 | tables and foreign keys: primary key and unique directory give the reference outcome |
| `RelationalStorage.Database.CreateMeetingWithNote` | crates/panops-portable/src/rusqlite_storage.rs:285-382 | tables and foreign keys: the transaction rolls back on either constraint |
| `RelationalStorage.Database.UpdateMeetingEnded` | crates/panops-portable/src/rusqlite_storage.rs:469-490 | tables and foreign keys: the signed column holds the duration as the reader sees it |
| `RelationalStorage.Database.RenameMeeting` | crates/panops-portable/src/rusqlite_storage.rs:492-508 | tables and foreign keys: one row changes |
| `RelationalStorage.Database.DeleteMeeting` | crates/panops-portable/src/rusqlite_storage.rs:510-522 | tables and foreign keys: notes and tag rows cascade |
| `RelationalStorage.Database.CreateNote` | crates/panops-portable/src/rusqlite_storage.rs:524-575 | tables and foreign keys: foreign key and primary key give the reference outcome |
| `RelationalStorage.Database.ReplaceMeetingNote` | crates/panops-portable/src/rusqlite_storage.rs:604-678 | tables and foreign keys: delete and insert in one transaction |
| `RelationalStorage.Database.CreateSpace` | crates/panops-portable/src/rusqlite_storage.rs:680-695 | tables and foreign keys: position by MAX plus one |
| `RelationalStorage.Database.RenameSpace` | crates/panops-portable/src/rusqlite_storage.rs:705-720 | tables and foreign keys: one row changes |
| `RelationalStorage.Database.DeleteSpace` | crates/panops-portable/src/rusqlite_storage.rs:722-734 | tables and foreign keys: projects cascade, meeting columns are set to null |
| `RelationalStorage.Database.CreateProject` | crates/panops-portable/src/rusqlite_storage.rs:736-754 | tables and foreign keys: position by MAX plus one within the space |
| `RelationalStorage.Database.RenameProject` | crates/panops-portable/src/rusqlite_storage.rs:781-796 | tables and foreign keys: one row changes |
| `RelationalStorage.Database.DeleteProject` | crates/panops-portable/src/rusqlite_storage.rs:798-810 | tables and foreign keys: meeting columns are set to null |
| `RelationalStorage.Database.CreateTag` | crates/panops-portable/src/rusqlite_storage.rs:812-828 | tables and foreign keys: the tag of that name, new or not |
| `RelationalStorage.Database.DeleteTag` | crates/panops-portable/src/rusqlite_storage.rs:838-850 | tables and foreign keys: tag rows cascade |
| `RelationalStorage.Database.TagMeeting` | crates/panops-portable/src/rusqlite_storage.rs:852-862 | tables and foreign keys: the row is there, once |
| `RelationalStorage.Database.UntagMeeting` | crates/panops-portable/src/rusqlite_storage.rs:864-874 | tables and foreign keys: the row is gone |
| `RelationalStorage.Database.AssignMeeting` | crates/panops-portable/src/rusqlite_storage.rs:894-928 | tables and foreign keys: a project brings its own space and the space argument is then ignored; an unknown meeting, project or space is refused |
| `RelationalStorage.Database.DeleteSpaceRow` | crates/panops-portable/src/rusqlite_storage.rs:84-100 | ON DELETE CASCADE to projects, and ON DELETE SET NULL through both to meetings |
| `RelationalStorage.Database.DeleteMeetingRow` | crates/panops-portable/src/rusqlite_storage.rs:82-118 | ON DELETE CASCADE to notes and tag rows |
| `RelationalStorage.Database.TagIdsForMeeting` | crates/panops-portable/src/rusqlite_storage.rs:967-979 | the tags of a meeting, sorted and without duplicates |
| `RelationalStorage.Database.ListMeetingsFiltered` | crates/panops-portable/src/rusqlite_storage.rs:404-467 | the summaries of exactly the matching meetings, newest first |
| `RelationalStorage.SpaceSetNullView` | crates/panops-portable/src/rusqlite_storage.rs:70-80 | setting the space column to null erases exactly those assignments |
| `RelationalStorage.ProjectSetNullView` | crates/panops-portable/src/rusqlite_storage.rs:70-80 | setting the project column to null erases exactly those assignments |
| `RelationalStorage.StoredFaithfully` | crates/panops-portable/src/rusqlite_storage.rs:469-490 | a duration survives the signed column if and only if it is below 2^63 |
| `RegistrySimulation.StoredAsGiven` | crates/panops-portable/src/rusqlite_storage.rs:285-490 | on every registry, an operation leaves in the database what it says if and only if its duration is below 2^63 or it is refused: an unknown meeting, or for a creation a taken id or directory, a note of another meeting or a taken note id |
| `RegistrySimulation.StepBoth` | crates/panops-portable/src/rusqlite_storage.rs:254-929 | one operation with the same fresh id, from equal states: afterwards the two adapters hold the same registry if and only if its duration is below 2^63 or it is refused in that way, and below 2^63 the outcomes are equal too |
| `RegistrySimulation.RunBoth` | crates/panops-core/src/conformance/fakes.rs:415-1023 | every sequence of operations with durations below 2^63 takes both adapters from empty to the same registry with the same outcomes; that registry has integrity and lists in creation order, and the hand-kept tag lists stay sorted |
| `RegistrySimulation.WideDurationDiverges` | crates/panops-portable/src/rusqlite_storage.rs:469-490 | from every common state, ending a meeting with a duration of 2^63 or more leaves that duration in memory and 0 in the database |
| `JsonSchema.ReadWeight` | apps/panops-llm-mac/Sources/PanopsLlmMac/Codecs.swift:180-309 | the size measure on which the compiler terminates: the keywords read out of an object weigh less than the object |
| `JsonSchemaSoundness.Sound` | apps/panops-llm-mac/Sources/PanopsLlmMac/Codecs.swift:180-266 | in the fragment, and whatever the keywords mean that the compiler does not look at, every value that the compiled guide accepts is valid against the whole source schema (sections 6.1, 6.4 and 6.5 of JSON Schema Validation 2020-12); where a schema is compiled the fragment has none of those keywords except additionalProperties, and alternatives that are not compiled are judged by their whole meaning |
| `JsonSchemaSoundness.SoundSchema` | apps/panops-llm-mac/Sources/PanopsLlmMac/Codecs.swift:180-266 | the same on the nine keywords that the compiler looks at, for every meaning of the others inside them |
| `JsonSchemaSoundness.DeclaredOnly` | apps/panops-llm-mac/Sources/PanopsLlmMac/Codecs.swift:223-245 | where no alternatives are compiled, an accepted object has declared properties only |
| `JsonSchemaSoundness.SoundStripped` | apps/panops-llm-mac/Sources/PanopsLlmMac/Codecs.swift:286-303 | an optional property is compiled from its schema without null, and what that accepts the schema itself accepts, in the same fragment |
| `JsonSchemaSoundness.SoundAlternatives` | apps/panops-llm-mac/Sources/PanopsLlmMac/Codecs.swift:198-208 | a value of some compiled branch is valid against some branch |
| `JsonSchemaSoundness.SoundAnyOf` | apps/panops-llm-mac/Sources/PanopsLlmMac/Codecs.swift:198-208 | anyOf that stands alone is compiled without widening |
| `JsonSchemaSoundness.SoundTypes` | apps/panops-llm-mac/Sources/PanopsLlmMac/Codecs.swift:210-220 | a type array is compiled type by type without widening |
| `JsonSchemaSoundness.SoundType` | apps/panops-llm-mac/Sources/PanopsLlmMac/Codecs.swift:222-265 | objects, arrays with their bounds, and the scalar types |
| `JsonSchemaSoundness.SoundProperties` | apps/panops-llm-mac/Sources/PanopsLlmMac/Codecs.swift:223-245 | every declared property of an accepted object is valid |
| `JsonSchemaSoundness.RequiredPresent` | apps/panops-llm-mac/Sources/PanopsLlmMac/Codecs.swift:225-239 | every required name is present in an accepted object when it is declared |
| `JsonSchemaSoundness.SoundEnum` | apps/panops-llm-mac/Sources/PanopsLlmMac/Codecs.swift:185-196 | an accepted value is one of the enumerated strings and meets the keywords beside it, whatever stands in the alternatives among them |
| `JsonSchemaSoundness.SoundStrippedAnyOf` | apps/panops-llm-mac/Sources/PanopsLlmMac/Codecs.swift:286-303 | dropping null branches of anyOf only narrows |
| `JsonSchemaSoundness.SoundStrippedTypes` | apps/panops-llm-mac/Sources/PanopsLlmMac/Codecs.swift:286-303 | dropping null from a type array only narrows |
| `JsonSchemaComplete.CompilesIff` | apps/panops-llm-mac/Sources/PanopsLlmMac/Codecs.swift:180-309 | compilation succeeds if and only if, read off the schema: an enum is a list of strings that is not empty, every alternative that is not null compiles, every named type is known, and the properties of an object and the items of an array compile |
| `JsonSchemaComplete.ErrorKinds` | apps/panops-llm-mac/Sources/PanopsLlmMac/Codecs.swift:180-309 | which error a schema gives at its own level: invalid for a value that is no object, an empty enum, unreadable or missing types and an array without items; unsupported for an enum with other values and an unknown type |
| `JsonSchemaComplete.Complete` | apps/panops-llm-mac/Sources/PanopsLlmMac/Codecs.swift:180-309 | in the fragment the guide accepts exactly the values that are valid and tidy: of a type that is named, or that properties, items or enum imply; null only where nothing else is named or every alternative is null; declared members only; and whole numbers written as integers wherever number is not named |
| `JsonSchemaComplete.StrippingChangesNothing` | apps/panops-llm-mac/Sources/PanopsLlmMac/Codecs.swift:286-303 | a schema compiles to the same guide with and without its null |
| `JsonSchemaComplete.CompleteAnyOf` | apps/panops-llm-mac/Sources/PanopsLlmMac/Codecs.swift:198-208 | for anyOf: exactly the values that are valid and tidy for some branch that is not null, or null when there is none |
| `JsonSchemaComplete.CompleteEnum` | apps/panops-llm-mac/Sources/PanopsLlmMac/Codecs.swift:185-196 | for an enum: exactly its strings |
| `JsonSchemaComplete.TypesTake` | apps/panops-llm-mac/Sources/PanopsLlmMac/Codecs.swift:210-266 | for types: exactly what one of the named types takes, or null when null is the only one |
| `JsonSchemaComplete.TypeTakesIff` | apps/panops-llm-mac/Sources/PanopsLlmMac/Codecs.swift:222-265 | for one type: exactly the objects, arrays or scalars of that type, number taking whole numbers and others |
| `JsonSchemaComplete.ObjectTakesIff` | apps/panops-llm-mac/Sources/PanopsLlmMac/Codecs.swift:223-245 | for an object: declared members only, each valid and tidy, and every declared required one present |
| `JsonSchemaComplete.ArrayTakesIff` | apps/panops-llm-mac/Sources/PanopsLlmMac/Codecs.swift:246-254 | for an array: a length within the truncated bounds, and every item valid and tidy |
| `JsonSchemaComplete.NamesFound` | apps/panops-llm-mac/Sources/PanopsLlmMac/Codecs.swift:268-284 | the type names found are exactly those that the type keyword gives, or without one properties, items or enum |
| `JsonSchemaComplete.KeywordsAre` | apps/panops-llm-mac/Sources/PanopsLlmMac/Codecs.swift:180-183 | each of the nine keywords is the first member of its name |
| `JsonSchemaComplete.NullSchemaIs` | apps/panops-llm-mac/Sources/PanopsLlmMac/Codecs.swift:305-309 | the null schemas are null itself and the objects whose type is the word null |
| `JsonSchemaComplete.IntValueIs` | apps/panops-llm-mac/Sources/PanopsLlmMac/Codecs.swift:322-328 | a bound is a whole number, or the nearest one toward zero |
| `JsonSchemaLimits.EnumSoundIff` | apps/panops-llm-mac/Sources/PanopsLlmMac/Codecs.swift:185-196 | for every meaning of the unread keywords, a string enum is sound if and only if the type, anyOf and oneOf beside it admit each of its strings; without alternatives, if and only if the type lets strings through |
| `JsonSchemaLimits.NonArrayEnum` | apps/panops-llm-mac/Sources/PanopsLlmMac/Codecs.swift:185-185 | an enum that is not an array is skipped, and everything the guide accepts is then wrong |
| `JsonSchemaLimits.NullBranchesIff` | apps/panops-llm-mac/Sources/PanopsLlmMac/Codecs.swift:198-201 | for every meaning of the unread keywords, alternatives that are all null, or none at all, are sound if and only if null is valid; an empty list always lets null through |
| `JsonSchemaLimits.SiblingsIff` | apps/panops-llm-mac/Sources/PanopsLlmMac/Codecs.swift:198-208 | a value accepted for anyOf is valid if and only if the keywords beside anyOf accept it |
| `JsonSchemaLimits.TypeBesideAnyOfIff` | apps/panops-llm-mac/Sources/PanopsLlmMac/Codecs.swift:198-208 | anyOf beside a type is sound if and only if the guide, read structurally, yields values of that type only |
| `JsonSchemaOneOf.OneOfIff` | apps/panops-llm-mac/Sources/PanopsLlmMac/Codecs.swift:198-208 | oneOf is sound if and only if no compiled branch shares a value with another branch; for strings, numbers, truth values and null that is read off the two branches |
| `JsonSchemaOneOf.ScalarsAlike` | apps/panops-llm-mac/Sources/PanopsLlmMac/Codecs.swift:210-265 | in the fragment, one number and one truth value stand for all |
| `JsonSchemaOneOf.StringsShow` | apps/panops-llm-mac/Sources/PanopsLlmMac/Codecs.swift:185-265 | in the fragment, a schema that takes any string shows it in its type keywords and enums |
| `JsonSchemaOneOf.NullableOneOfIff` | apps/panops-llm-mac/Sources/PanopsLlmMac/Codecs.swift:198-208 | oneOf of a schema and null is sound if and only if the guide of the schema refuses null |
| `JsonSchemaLimits.EmptyTypeArrayBecomesNull` | apps/panops-llm-mac/Sources/PanopsLlmMac/Codecs.swift:268-284 | every schema with an empty type array, and without enum and alternatives, lets null through |
| `JsonSchemaLimits.RequiredIff` | apps/panops-llm-mac/Sources/PanopsLlmMac/Codecs.swift:225-239 | an accepted object has the required names if and only if they are declared |
| `JsonSchemaLimits.ObjectSoundIff` | apps/panops-llm-mac/Sources/PanopsLlmMac/Codecs.swift:223-245 | an object schema whose guide accepts anything is sound if and only if its required names are declared |
| `JsonSchemaLimits.BoundsExact` | apps/panops-llm-mac/Sources/PanopsLlmMac/Codecs.swift:322-328 | truncated bounds keep the real ones, for every length, if and only if they admit no length, or the minimum is whole or negative and the maximum is not strictly between -1 and 0 |
| `JsonSchemaLimits.ArraySoundIff` | apps/panops-llm-mac/Sources/PanopsLlmMac/Codecs.swift:246-254 | an array schema whose items have a value is sound if and only if truncation keeps its bounds |
| `JsonSchemaUnread.UnreadIgnored` | apps/panops-llm-mac/Sources/PanopsLlmMac/Codecs.swift:180-266 | any keyword other than the nine leaves the guide as it is |
| `JsonSchemaUnread.UnreadSoundIff` | apps/panops-llm-mac/Sources/PanopsLlmMac/Codecs.swift:180-266 | for every such keyword and every meaning it may have, adding it keeps soundness if and only if every accepted value meets it |
| `JsonSchemaUnread.ConstIff` | apps/panops-llm-mac/Sources/PanopsLlmMac/Codecs.swift:180-266 | const is kept if and only if the guide, read structurally, yields that constant only |
| `JsonSchemaUnread.UniqueItemsIff` | apps/panops-llm-mac/Sources/PanopsLlmMac/Codecs.swift:246-254 | uniqueItems is kept, when the items have a value, if and only if the bounds let no array of two or more through |
| `JsonSchemaUnread.AdditionalPropertiesKept` | apps/panops-llm-mac/Sources/PanopsLlmMac/Codecs.swift:223-245 | additionalProperties, whatever it asks, stays in the fragment where no alternatives are compiled |
| `JsonSchemaUnread.ConstBesideEnum` | apps/panops-llm-mac/Sources/PanopsLlmMac/Codecs.swift:185-196 | an enum beside an anyOf whose const excludes it lets a wrong value through |
| `JsonSchemaUnread.ConstInNullBranch` | apps/panops-llm-mac/Sources/PanopsLlmMac/Codecs.swift:198-201 | a null branch with a const that excludes null lets null through |
| `JsonSchemaUnread.MinimumIgnored` | apps/panops-llm-mac/Sources/PanopsLlmMac/Codecs.swift:257-258 | no minimum of an integer is ever kept, whatever its value |
| `JsonSchemaUnread.MinLengthIff` | apps/panops-llm-mac/Sources/PanopsLlmMac/Codecs.swift:255-256 | a least length of a string is kept if and only if it is not positive |
| `JsonSchemaLimits.EnumIgnoresType` | apps/panops-llm-mac/Sources/PanopsLlmMac/Codecs.swift:185-196 | a schema with enum beside type that lets a wrong value through |
| `JsonSchemaLimits.AnyOfIgnoresSiblings` | apps/panops-llm-mac/Sources/PanopsLlmMac/Codecs.swift:198-208 | a schema with anyOf beside type that lets a wrong value through |
| `JsonSchemaOneOf.OneOfIsNotExclusive` | apps/panops-llm-mac/Sources/PanopsLlmMac/Codecs.swift:198-208 | a oneOf whose two branches both hold is let through |
| `JsonSchemaLimits.UndeclaredRequiredName` | apps/panops-llm-mac/Sources/PanopsLlmMac/Codecs.swift:225-239 | a required name without a property is not asked for |
| `JsonSchemaLimits.FractionalBoundTruncated` | apps/panops-llm-mac/Sources/PanopsLlmMac/Codecs.swift:322-328 | a minimum of 1.5 lets an array of one through, and a maximum of -0.5 the empty one |
| `SidecarRpc.ReadResponseLine` | crates/panops-mac/src/foundation_llm.rs:359-393 | buffered bytes plus delivered bytes are the returned line plus what stays buffered: nothing is lost or invented; a line feed, octet 10, comes last or not at all, and reading stops short of one only at the size, or at the event that ends it, with the result of that event |
| `SidecarRpc.Client.EnsureSpawned` | crates/panops-mac/src/foundation_llm.rs:161-197 | a live child is kept with its pipe and its buffer, and a new one comes with an empty pipe |
| `SidecarRpc.Client.Exchange` | crates/panops-mac/src/foundation_llm.rs:230-285 | fails to write exactly when the write fails; after a write that went well, what the reader gets out of what was kept and what the child prints decides the outcome, a line the answer and anything else the failure of its cause; then either one whole line was taken and the child owes nothing, or the slot is cleared |
| `SidecarRpc.Client.Converse` | crates/panops-mac/src/foundation_llm.rs:230-331 | with a live child: a transport failure that clears the slot, or the verdict on the line just taken |
| `SidecarRpc.Client.SendRequest` | crates/panops-mac/src/foundation_llm.rs:209-332 | against any child, each transport failure if and only if its cause occurs in the call: no child, no encoding, no write, or a read without a line; the id is new, a value or remote error comes from a line carrying that id, and a child that is kept has had one line taken for every request written to it |
| `SidecarRpc.Client.Decide` | crates/panops-mac/src/foundation_llm.rs:286-331 | a value or remote error only for a line that carries the id; undecodable, null-id and mismatched lines drop the child, a line that is not UTF-8 does not |
| `SidecarRpc.OneMoreLine` | crates/panops-mac/src/foundation_llm.rs:230-285 | bytes are conserved: one request written and one line taken keep the account of what the child printed, what was taken and what is left |
| `SidecarRpc.NothingLeft` | crates/panops-mac/src/foundation_llm.rs:247-285 | a kept child that prints one line per request has nothing left in buffer or pipe, and the lines taken are its answers in order |
| `SidecarRpc.SameLines` | crates/panops-mac/src/foundation_llm.rs:359-393 | a byte stream cuts into lines in one way only |
| `SidecarRpc.Ask` | crates/panops-mac/src/foundation_llm.rs:209-332 | one call to an answering child, new or kept from calls before: when the child is there, the request encoded and written and the whole line of at most 16 MiB handed over, the answer is what the fields of its own response say and the child is kept; otherwise the failure is that of its cause |
| `SidecarRpc.Run` | crates/panops-mac/src/foundation_llm.rs:161-332 | in every run with timeouts, late answers, crashes, truncated lines and respawns against answering children, each call that goes through and gets its whole line returns the answer to its own request, any other fails by its cause, ids never repeat, and the mismatch branch is never taken |
| `SidecarRpc.ReadDecides` | crates/panops-mac/src/foundation_llm.rs:359-393 | the result from all that is handed over until an event ends the reading: time out, broken or end of stream, unless a line or the size comes first |
| `SidecarRpc.ReadsGets` | crates/panops-mac/src/foundation_llm.rs:247-285 | what one exchange comes to, against any child: a line of at most 16 MiB among the bytes handed over is taken, and without one the failure is that of the step that ends the reading, or the size |
| `SidecarRpc.JudgeSays` | crates/panops-mac/src/foundation_llm.rs:286-331 | the verdict on a decoded response, field by field: not text, not JSON, no id, another id, an error, a result, or neither |
| `SidecarRpc.OneLineGets` | crates/panops-mac/src/foundation_llm.rs:247-285 | for a pipe with one line: taken if the steps hand over all of it, and otherwise cut short by the step that ends the reading |
| `SidecarRpc.OfferIsPrefix` | crates/panops-mac/src/foundation_llm.rs:359-393 | what a reader gets from a pipe, interrupted anywhere, is a prefix of what was printed |
| `CaptureSession.Always` | crates/panops-mac/src/screencapturekit_capture.rs:192-378 | what every step of both parties keeps, for any number of threads, crashes, respawns and failed stops; about recorders that outlive their session too, in runs that never start a meeting over such a recorder |
| `CaptureSession.NoOrphanRecording` | crates/panops-mac/src/screencapturekit_capture.rs:192-378 | with no call in flight, the meeting of the live sidecar's session is in the session map |
| `CaptureSession.NoOrphanRecorder` | crates/panops-mac/src/screencapturekit_capture.rs:192-378 | nor does a recorder left by a failed stop run with its meeting out of the map, in runs without such restarts |
| `CaptureSession.RestartOrphans` | apps/panops-capture-mac/Sources/PanopsCaptureMac/main.swift:148-276 | such a restart, stopped in good order, always leaves a recorder running with its meeting out of the map |
| `CaptureSession.StrayAfterFailedStop` | apps/panops-capture-mac/Sources/PanopsCaptureMac/main.swift:243-270 | one start and one stop that throws leave a recorder running with no session |
| `CaptureSession.RecorderCount` | apps/panops-capture-mac/Sources/PanopsCaptureMac/main.swift:148-276 | the recorders running are the one of the session, if any, and exactly one for each stop that threw with the stream still on |
| `CaptureSession.OneRecording` | apps/panops-capture-mac/Sources/PanopsCaptureMac/main.swift:148-276 | at most one recorder runs if and only if no stop threw with the stream still on, or one did and no session has begun since |
| `CaptureSession.TwoRecorders` | apps/panops-capture-mac/Sources/PanopsCaptureMac/main.swift:243-270 | a start, a stop that throws and a second start run two recorders |
| `CaptureSession.LocksKept` | crates/panops-mac/src/screencapturekit_capture.rs:192-378 | each mutex is held by at most one thread, and exactly by one that is between lock and unlock |
| `CaptureSession.SidecarKept` | crates/panops-mac/src/screencapturekit_capture.rs:192-310 | at most one request or response is on the pipes, and it belongs to the thread that holds the lock |
| `CaptureSession.NoOrphanKept` | crates/panops-mac/src/screencapturekit_capture.rs:312-378 | each step keeps: a recorded meeting is in the map or its start has been granted |
| `CaptureSession.RecordingStarts` | apps/panops-capture-mac/Sources/PanopsCaptureMac/main.swift:166-225 | a recording begins only by serving the start of that meeting |
| `CaptureSession.GrantLasts` | crates/panops-mac/src/screencapturekit_capture.rs:312-348 | a granted start is not forgotten before it is in the map |
| `CaptureSession.StopHoldsTheMap` | crates/panops-mac/src/screencapturekit_capture.rs:350-378 | no start enters the map between the answer to a stop and its removal |
| `CaptureSteps.StartServed` | apps/panops-capture-mac/Sources/PanopsCaptureMac/main.swift:166-225 | a start is refused while a session lasts or when the recorder does not start; granted, the session is that meeting and its recorder runs |
| `CaptureSteps.StopServed` | apps/panops-capture-mac/Sources/PanopsCaptureMac/main.swift:243-276 | a stop is refused for anything but the meeting of the session; otherwise the session is over, and its recorder runs on only when it throws with the stream still on |
| `CaptureSteps.SendDoes` | crates/panops-mac/src/screencapturekit_capture.rs:192-228 | a send that goes through takes the state lock and leaves the request with the child, who has no answer yet |
| `CaptureSteps.SendFails` | crates/panops-mac/src/screencapturekit_capture.rs:192-227 | a send that fails ends the call, and costs the child when the request cannot be written |
| `CaptureSteps.ReceiveDoes` | crates/panops-mac/src/screencapturekit_capture.rs:229-309 | an answer is read: yes lets the call go on without the state lock, no ends it |
| `CaptureSteps.ReadFailsDoes` | crates/panops-mac/src/screencapturekit_capture.rs:229-274 | a read that fails ends the call and gives up the child |
| `CaptureSteps.InsertDoes` | crates/panops-mac/src/screencapturekit_capture.rs:323-326 | a granted start enters exactly its meeting, once no one holds the map |
| `CaptureSteps.CheckDoes` | crates/panops-mac/src/screencapturekit_capture.rs:358-365 | a stop looks its meeting up, and holds the map if and only if the meeting is there |
| `CaptureSteps.RemoveDoes` | crates/panops-mac/src/screencapturekit_capture.rs:366-370 | a granted stop takes exactly its meeting out |
| `CaptureSteps.StartThenStop` | crates/panops-mac/src/screencapturekit_capture.rs:312-378 | after any run without calls in flight and without a session, a start that goes well puts the meeting in the map and on record, and a stop that goes well takes it out of both |
| `EditDistance.Levenshtein` | crates/panops-core/src/wer.rs:25-42 | the filled table gives the edit distance |
| `EditDistance.FillRow` | crates/panops-core/src/wer.rs:33-40 | the row that obeys the recurrence over the row above, and nothing in the first column changes |
| `EditDistance.DistancesFollow` | crates/panops-core/src/wer.rs:33-40 | the distances of each prefix obey that recurrence over those of the prefix before |
| `EditDistance.DistanceIsMinimum` | crates/panops-core/src/wer.rs:25-42 | the distance is the one number that is the length of some insert, delete and substitute script and of no shorter one |
| `EditDistance.ShortestPath` | crates/panops-core/src/wer.rs:25-42 | a script of that length exists |
| `EditDistance.NoShorterPath` | crates/panops-core/src/wer.rs:25-42 | no script is shorter |
| `EditDistance.ZeroIffEqual` | crates/panops-core/src/wer.rs:25-42 | the distance is zero if and only if the sequences are equal |
| `EditDistance.Symmetric` | crates/panops-core/src/wer.rs:25-42 | the distance is symmetric |
| `EditDistance.Triangle` | crates/panops-core/src/wer.rs:25-42 | the triangle inequality |
| `EditDistance.Bounds` | crates/panops-core/src/wer.rs:25-42 | the distance lies between the difference and the larger of the lengths |
| `EditDistance.WordErrorRate` | crates/panops-core/src/wer.rs:3-11 | errors per reference word, with the empty reference apart; zero if and only if the token lists are equal |
| `Regions.ClampTwice` | crates/panops-core/src/vad.rs:44-49 | clamping is idempotent |
| `Regions.ClampKeeps` | crates/panops-core/src/vad.rs:44-49 | a clamped region has exactly the times of the region below the ceiling, and one below it is left as it is |
| `Regions.MergeAdjacentRegions` | crates/panops-portable/src/audio.rs:217-233 | for well-formed regions in any order the result is a merge: separated by more than the gap, each input inside an output, no output wider than its inputs and bridged gaps |
| `Regions.CoverageExact` | crates/panops-portable/src/audio.rs:217-233 | a merge covers exactly the inputs and the gaps of at most the given length |
| `Regions.MergeCanonical` | crates/panops-portable/src/audio.rs:217-233 | the merge depends on the set of regions only, not on their order |
| `Regions.MergeIdempotent` | crates/panops-portable/src/audio.rs:217-233 | merging a merge changes nothing |
| `Regions.InsideExactlyOne` | crates/panops-portable/src/audio.rs:217-233 | each input region lies in exactly one output region |
| `Transcription.SplitPoint` | crates/panops-portable/src/recursive_asr.rs:150-157 | both parts of a split keep at least ten seconds, so the clamp is never inverted |
| `Transcription.SplitNearest` | crates/panops-portable/src/recursive_asr.rs:142-157 | the split is as near to the start of the least certain segment as that allows, or in the middle of a confident long region |
| `Transcription.WorstIndex` | crates/panops-portable/src/recursive_asr.rs:83-87 | the first segment of least confidence |
| `Transcription.AtMostFifteenCalls` | crates/panops-portable/src/recursive_asr.rs:61-183 | for every recogniser at most 15 calls and 8 leaves |
| `Transcription.LeavesTile` | crates/panops-portable/src/recursive_asr.rs:61-183 | the leaf regions lie end to end over the region, each at least ten seconds when there are several |
| `Transcription.LeavesCoverSamples` | crates/panops-portable/src/recursive_asr.rs:185-196 | the leaf slices, concatenated, are the slice of the region: each sample is heard once |
| `TranscriptionSteps.RegionHears` | crates/panops-portable/src/recursive_asr.rs:185-196 | sample k is heard with a region if and only if it ends after the start of the region and not after its end: start * rate < 1000 (k + 1) <= end * rate |
| `TranscriptionSteps.WholeHears` | crates/panops-portable/src/recursive_asr.rs:185-196 | the region from 0 to the whole milliseconds of the recording hears every sample that ends within them |
| `TranscriptionSteps.TotalIs` | crates/panops-engine/src/main.rs:504-515 | the length in whole milliseconds |
| `TranscriptionSteps.StaysIff` | crates/panops-portable/src/recursive_asr.rs:89-135 | a region is split if and only if no language is given, something was heard, it is at least twenty seconds long and at depth less than three, and some segment is below one half or, unless the recogniser is a fake, it is longer than thirty seconds |
| `TranscriptionSteps.RegionStays` | crates/panops-portable/src/recursive_asr.rs:61-140 | a region that stays whole: one call on its samples, its segments shifted by its start and cut at its end, and the model that heard them |
| `TranscriptionSteps.RegionSplits` | crates/panops-portable/src/recursive_asr.rs:137-183 | any other region: cut at the least certain segment or in the middle, at least ten seconds from both ends; the answers of the halves one after the other, the model of the whole, or the first failure |
| `TranscriptionSteps.StitchingGoesOn` | crates/panops-engine/src/main.rs:504-534 | the next region, cut to the recording: skipped when nothing is left of it, otherwise its segments come before those of the rest, with the first model or the first failure |
| `Transcription.AnswerIsLeaves` | crates/panops-portable/src/recursive_asr.rs:61-183 | the result is the answers of the leaves, offset, in order |
| `Transcription.RegionOrdered` | crates/panops-portable/src/recursive_asr.rs:61-202 | ordered answers give ordered segments inside the region |
| `Transcription.TranscribeWithVad` | crates/panops-engine/src/main.rs:504-534 | merge, clamp, recurse and stitch: the loop gives the stitched answer of the merged regions, the first model, or the first failure |
| `Transcription.StitchedIsOrdered` | crates/panops-engine/src/main.rs:504-534 | separated regions stitch to sorted, non-overlapping segments inside the recording |
| `Transcription.TranscriptOrdered` | crates/panops-engine/src/main.rs:504-534 | end to end: for regions in any order and any recogniser with ordered answers, the transcript is sorted, non-overlapping and within the audio |
| `Transcription.StitchCalls` | crates/panops-engine/src/main.rs:504-534 | at most 15 recogniser calls per merged region |
| `Diarization.Relabel` | crates/panops-portable/src/sherpa_diarizer.rs:151-170 | in-place left-to-right relabelling equals the simultaneous rule: the nearest preceding major speaker, else the nearest following |
| `Diarization.FollowsPredecessor` | crates/panops-portable/src/sherpa_diarizer.rs:151-170 | under the rule a minor turn takes the new speaker of the turn before it, which is what an in-place pass reads |
| `Diarization.GoesTo` | crates/panops-portable/src/sherpa_diarizer.rs:151-170 | a major speaker keeps the turn; any other turn goes to the nearest turn of a major speaker before it, and only without one to the nearest behind it |
| `Diarization.TotalsGrow` | crates/panops-portable/src/sherpa_diarizer.rs:127-139 | totals, turn by turn: the time from start to end, or none |
| `Diarization.MergeRuns` | crates/panops-portable/src/sherpa_diarizer.rs:172-182 | runs of one speaker become one turn from first start to greatest end |
| `Diarization.Renumber` | crates/panops-portable/src/sherpa_diarizer.rs:184-194 | ids are numbered by first appearance |
| `Diarization.CollapseMinorSpeakers` | crates/panops-portable/src/sherpa_diarizer.rs:126-195 | unchanged unless minor and major speakers mix; otherwise relabelled, merged and renumbered |
| `Diarization.CollapsedShape` | crates/panops-portable/src/sherpa_diarizer.rs:126-195 | neighbouring turns differ, and the ids are exactly 0 to k-1 for the k major speakers |
| `Diarization.CollapsedTurns` | crates/panops-portable/src/sherpa_diarizer.rs:126-195 | every input turn lies inside its output turn, two turns share an output speaker if and only if the rule gives them one speaker, and distinct major speakers stay distinct |
| `Diarization.TurnInsideRun` | crates/panops-portable/src/sherpa_diarizer.rs:172-182 | every input turn lies inside its merged turn |
| `Diarization.RenumberingInjective` | crates/panops-portable/src/sherpa_diarizer.rs:184-194 | renumbering keeps speakers apart |
| `Diarization.IdsAreExactly` | crates/panops-portable/src/sherpa_diarizer.rs:184-194 | the ids in use are an initial segment |
| `Diarization.MergedSpeakersAreMajors` | crates/panops-portable/src/sherpa_diarizer.rs:142-182 | after relabelling and merging exactly the major speakers are left |
| `Diarization.ClampOverlaps` | crates/panops-portable/src/sherpa_diarizer.rs:103-111 | each turn starts at its own start or at the end before it, and never ends before it starts |
| `Diarization.ClampedAreDisjoint` | crates/panops-portable/src/sherpa_diarizer.rs:103-111 | clamped turns are sorted and free of overlap |
| `Diarization.DisjointUntouched` | crates/panops-portable/src/sherpa_diarizer.rs:103-111 | turns that do not overlap are left alone |
| `Diarization.Diarize` | crates/panops-portable/src/sherpa_diarizer.rs:88-112 | sorted by start, turns with one start in the order in which they came; then collapsed and clamped: the result is sorted and free of overlap |
| `YamlPrinter.YamlScalar` | crates/panops-portable/src/markdown_exporter.rs:257-285 | the pushing loop prints the string plain or escaped between quotes |
| `YamlPrinter.PrintedPlainIff` | crates/panops-portable/src/markdown_exporter.rs:257-367 | a string is printed as it is if and only if it looks plain and is none of twelve words in any mixture of capitals |
| `YamlPrinter.EscapesAre` | crates/panops-portable/src/markdown_exporter.rs:266-284 | the escape of each character: backslash, quote, line feed, return and tab by letter, other controls by four hexadecimal digits, anything else as it is |
| `YamlPrinter.ListIs` | crates/panops-portable/src/markdown_exporter.rs:369-375 | a list is its scalars between brackets, with a comma and a space between two |
| `YamlRoundTrip.ScalarRoundTrip` | crates/panops-portable/src/markdown_exporter.rs:257-285 | every string, printed and read as YAML 1.2.2, is the same string |
| `YamlRoundTrip.ListRoundTrip` | crates/panops-portable/src/markdown_exporter.rs:369-375 | every list of strings, printed and read as a flow sequence, is the same list |
| `YamlRoundTrip.NoValueAddsALine` | crates/panops-portable/src/markdown_exporter.rs:257-375 | neither a scalar nor a list ever contains a raw line feed or carriage return |
| `YamlRoundTrip.ScalarIsOneLine` | crates/panops-portable/src/markdown_exporter.rs:266-284 | no control character is printed raw |
| `YamlRoundTrip.QuotedReads` | crates/panops-portable/src/markdown_exporter.rs:266-284 | the escapes of section 5.7 read back as the characters they stand for |
| `YamlRoundTrip.PlainReads` | crates/panops-portable/src/markdown_exporter.rs:292-312 | a string printed plain is a well-formed plain scalar, in and out of a flow sequence, and the core schema resolves it to a string |
| `YamlNumbers.NonStringsSeen` | crates/panops-portable/src/markdown_exporter.rs:314-367 | the reserved-word and number tests recognise exactly the non-strings of the core schema other than the empty value and the spellings of `+.inf` |
| `YamlNumbers.PlusInfinityIsNotSeen` | crates/panops-portable/src/markdown_exporter.rs:335-339 | `+.inf` escapes both tests, contrary to the comment; the plain pattern still has it quoted |
| `Frontmatter.RenderFrontmatter` | crates/panops-portable/src/markdown_exporter.rs:97-139 | the pushed text is the fields, line by line, between the fences |
| `Frontmatter.SpeakerIs` | crates/panops-portable/src/markdown_exporter.rs:52-61 | `speaker_` and a number below 2^32 - 1 is the speaker of the next number, the last number stays, and a greater one is no speaker |
| `Frontmatter.NoSpeaker` | crates/panops-portable/src/markdown_exporter.rs:52-61 | everything else is left as it is |
| `FrontmatterRoundTrip.FrontmatterReadsBack` | crates/panops-portable/src/markdown_exporter.rs:97-139 | whatever the values and whatever follows, a reader finds exactly the printed fields: no value adds, hides or splits one |
| `FrontmatterRoundTrip.FieldsMeanTheNotes` | crates/panops-portable/src/markdown_exporter.rs:97-139 | each field read back holds the value it was printed from: strings, lists of strings, the duration as an integer, and the date, the start time and the dialect as strings |
| `FrontmatterRoundTrip.FieldsRead` | crates/panops-portable/src/markdown_exporter.rs:97-139 | fields with one-line values print to lines that read back as the same fields |
| `EventStream.EventStreamActor.RegisterCallback` | apps/Panops/Sources/Panops/EventStreamActor.swift:36-44 | a buffered event is replayed and removed, and otherwise the handler is registered |
| `EventStream.EventStreamActor.UnregisterCallback` | apps/Panops/Sources/Panops/EventStreamActor.swift:48-51 | the job leaves both the callbacks and the buffer |
| `EventStream.EventStreamActor.StopAll` | apps/Panops/Sources/Panops/EventStreamActor.swift:54-60 | callbacks and buffer are emptied |
| `EventStream.EventStreamActor.RouteEvent` | apps/Panops/Sources/Panops/EventStreamActor.swift:65-86 | a registered handler is called, once for a terminal event; an unclaimed terminal event is buffered, the oldest of 64 making room |
| `EventStream.Reachable` | apps/Panops/Sources/Panops/EventStreamActor.swift:36-86 | in every reachable state no job is both registered and buffered, and the buffer holds at most 64 terminal events |
| `EventStream.RegisteredFirst` | apps/Panops/Sources/Panops/EventStreamActor.swift:36-86 | registered first: the handler sees the progress in between, then the terminal event exactly once, then nothing |
| `EventStream.TerminalFirst` | apps/Panops/Sources/Panops/EventStreamActor.swift:36-86 | terminal event first: with fewer than 64 events buffered in between the handler sees it exactly once, and nothing else |
| `EventStream.DeliveredIffFewerThan64` | apps/Panops/Sources/Panops/EventStreamActor.swift:65-86 | when nothing is taken out meanwhile, it is delivered if and only if fewer than 64 were buffered, wherever in the buffer it stood |
| `EventStream.StaysBuffered` | apps/Panops/Sources/Panops/EventStreamActor.swift:65-86 | an entry survives while fewer than 64 events come behind it |
| `EventStream.PushedOut` | apps/Panops/Sources/Panops/EventStreamActor.swift:65-86 | the 64th event behind an entry evicts it |
| `EventStream.RegisterDoes` | apps/Panops/Sources/Panops/EventStreamActor.swift:36-44 | the oldest entry of the job is delivered to the new handler and leaves the buffer; without one the handler is registered |
| `EventStream.UnregisterDoes` | apps/Panops/Sources/Panops/EventStreamActor.swift:48-51 | no handler and no entry of the job is left, and all others are |
| `EventStream.RouteDoes` | apps/Panops/Sources/Panops/EventStreamActor.swift:65-86 | an event goes to the handler of its job, which the end of the job takes away; without one the end of a job is buffered behind the others, the oldest of 64 making room, and progress is dropped |
| `EventStream.UnregisteredIsSilent` | apps/Panops/Sources/Panops/EventStreamActor.swift:36-86 | after any run, an unregistered job gets nothing delivered until it is registered again |
| `Preview.CapturePreviewController.TearDown` | apps/Panops/Sources/Panops/CapturePreviewController.swift:129-149 | a new epoch with nothing selected; the held stream is handed to stop |
| `Preview.CapturePreviewController.RejectUnsupportedSelection` | apps/Panops/Sources/Panops/CapturePreviewController.swift:181-200 | the same with the selection marked rejected |
| `Preview.CapturePreviewController.DidPick` | apps/Panops/Sources/Panops/CapturePreviewController.swift:153-175 | a mappable pick replaces the selection, clears the crop and queues a restart |
| `Preview.CapturePreviewController.RestartPreview` | apps/Panops/Sources/Panops/CapturePreviewController.swift:254-261 | a new epoch; the old stream is handed to stop before the first suspension |
| `Preview.CapturePreviewController.AfterStop` | apps/Panops/Sources/Panops/CapturePreviewController.swift:257-260 | after the stop a superseded restart ends |
| `Preview.CapturePreviewController.AfterStart` | apps/Panops/Sources/Panops/CapturePreviewController.swift:275-283 | after the start the stream is adopted in its own epoch and handed to stop in any other |
| `Preview.CapturePreviewController.AfterStartError` | apps/Panops/Sources/Panops/CapturePreviewController.swift:284-288 | a failure shows only in its own epoch |
| `Preview.CapturePreviewController.ApplyCrop` | apps/Panops/Sources/Panops/CapturePreviewController.swift:206-217 | only a display target is cropped |
| `Preview.CapturePreviewController.RetryPreview` | apps/Panops/Sources/Panops/CapturePreviewController.swift:104-110 | with a filter kept, a restart is queued for it |
| `Preview.CapturePreviewController.DropCrop` | apps/Panops/Sources/Panops/CapturePreviewController.swift:220-229 | back to the whole display |
| `Preview.StreamsAccountedFor` | apps/Panops/Sources/Panops/CapturePreviewController.swift:129-330 | in every interleaving an adopted stream carries the current epoch, and every started stream is in exactly one of three places: pending, adopted, handed to stop |
| `Preview.AdoptionOverwritesNothing` | apps/Panops/Sources/Panops/CapturePreviewController.swift:277-283 | adoption never overwrites another stream |
| `Preview.SupersededIsNeverAdopted` | apps/Panops/Sources/Panops/CapturePreviewController.swift:129-330 | a restart past its epoch bump is never adopted after a teardown, a rejection or a newer restart |
| `Preview.NewestWins` | apps/Panops/Sources/Panops/CapturePreviewController.swift:254-289 | the restart of the current epoch, once done, holds its stream |
| `Preview.AdoptedLaterIff` | apps/Panops/Sources/Panops/CapturePreviewController.swift:129-330 | after any run and any teardown, rejection or newer restart, a restart can still be adopted if and only if it was queued, not begun |
| `Preview.QueuedRestartRevives` | apps/Panops/Sources/Panops/CapturePreviewController.swift:129-200 | after any run, a restart queued at a teardown or a rejection goes live after it with nothing selected |
| `Preview.TargetIsWhatIsShown` | apps/Panops/Sources/Panops/CapturePreviewController.swift:153-229 | a selected display is recorded whole or exactly as cropped; a rejected selection keeps no filter |
| `Preview.PickedTargetStaysIff` | apps/Panops/Sources/Panops/CapturePreviewController.swift:153-229 | after any run, a picked window or application stays the target until something else is chosen if and only if no crop is cleared, which would put a display there |
| `Preview.Reachable` | apps/Panops/Sources/Panops/CapturePreviewController.swift:129-330 | what every step keeps |
| `PreviewSteps.PickDoes` | apps/Panops/Sources/Panops/CapturePreviewController.swift:153-175 | a pick that maps to a target selects it whole and queues a restart for it; one that does not is rejected and ends the epoch |
| `PreviewSteps.TeardownDoes` | apps/Panops/Sources/Panops/CapturePreviewController.swift:129-149 | a new epoch with no stream and nothing selected; the stream that was held is handed to stop |
| `PreviewSteps.CropDoes` | apps/Panops/Sources/Panops/CapturePreviewController.swift:206-217 | a crop changes nothing but the target of a display, to that rectangle of it |
| `PreviewSteps.ClearCropDoes` | apps/Panops/Sources/Panops/CapturePreviewController.swift:220-229 | clearing it makes the whole display the target |
| `PreviewSteps.BeginDoes` | apps/Panops/Sources/Panops/CapturePreviewController.swift:254-261 | a restart begins with an epoch of its own, and waits for the stream that was held |
| `PreviewSteps.StoppedDoes` | apps/Panops/Sources/Panops/CapturePreviewController.swift:257-260 | the restart goes on in its own epoch and ends in any other |
| `PreviewSteps.ResumeDoes` | apps/Panops/Sources/Panops/CapturePreviewController.swift:275-283 | a stream that runs is held in its own epoch, and in any other handed to stop with nothing else changed |
| `PreviewSteps.StartFailsDoes` | apps/Panops/Sources/Panops/CapturePreviewController.swift:284-288 | a start that fails shows in its own epoch only |
| `PreviewSteps.PickGoesLive` | apps/Panops/Sources/Panops/CapturePreviewController.swift:153-289 | after any run, the restart of a pick that is left alone ends live with what was picked |
| `ChangeDetection.ChangeDetector.ShouldKeep` | apps/panops-capture-mac/Sources/PanopsCaptureMac/ChangeDetector.swift:93-110 | the verdict and the new gate, by interval first and by distance to the last kept frame second |
| `ChangeDetection.KeptAreSpaced` | apps/panops-capture-mac/Sources/PanopsCaptureMac/ChangeDetector.swift:93-110 | over every run in time order, kept frames are at least the interval apart and each differs from the one before it by at least the threshold |
| `ChangeDetection.FailedPrintsInvisible` | apps/panops-capture-mac/Sources/PanopsCaptureMac/ChangeDetector.swift:100-104 | failed feature prints change neither the gate nor the kept frames |
| `ChangeDetection.DropHasReason` | apps/panops-capture-mac/Sources/PanopsCaptureMac/ChangeDetector.swift:93-110 | a dropped frame failed, came too soon after a sampled one, or resembles the last kept frame |
| `ChangeDetection.GateMoves` | apps/panops-capture-mac/Sources/PanopsCaptureMac/ChangeDetector.swift:93-110 | a frame too soon after the last sampled one, or without a print, leaves no trace; any other sets the clock, also when it resembles the last kept one, and only a frame that is kept becomes the one to compare with |
| `ChangeDetection.SavingGoesOn` | apps/panops-capture-mac/Sources/PanopsCaptureMac/ScreenshotExtractor.swift:70-97 | a frame is saved if and only if it can be decoded, the gate keeps it, and it is encoded and written; the gate sees every frame that is decoded |
| `ChangeDetection.UnorderedTimes` | apps/panops-capture-mac/Sources/PanopsCaptureMac/ChangeDetector.swift:93-110 | for every sequence of times, kept frames are spaced whatever the feature prints are if and only if the times never go back, or no two prints differ by the threshold |
| `ChangeDetection.DescentLosesSpacing` | apps/panops-capture-mac/Sources/PanopsCaptureMac/ChangeDetector.swift:94-98 | any step back in the times loses the spacing for some feature prints |
| `ChangeDetection.Extract` | apps/panops-capture-mac/Sources/PanopsCaptureMac/ScreenshotExtractor.swift:70-97 | the saved frames in order and the file of each; in time order their times strictly increase |
| `ChangeDetection.SavedAreIncreasing` | apps/panops-capture-mac/Sources/PanopsCaptureMac/ScreenshotExtractor.swift:74-97 | the times of saved frames strictly increase |
| `ChangeDetection.SampleTimes` | apps/panops-capture-mac/Sources/PanopsCaptureMac/ScreenshotExtractor.swift:109-118 | all multiples of the interval up to the duration, and always 0 |
| `FileNames.NamesCollideIff` | apps/panops-capture-mac/Sources/PanopsCaptureMac/ScreenshotExtractor.swift:88-88 | two times share a file name if and only if they agree in the low 32 bits, which is all that `%d` prints |
| `FileNames.ChronologicalBelowBillion` | apps/panops-capture-mac/Sources/PanopsCaptureMac/ScreenshotExtractor.swift:88-88 | below 10^9 ms the order of the names is the order of the times |
| `FileNames.OrderedBelowIff` | apps/panops-capture-mac/Sources/PanopsCaptureMac/ScreenshotExtractor.swift:88-88 | 10^9 is the exact limit of that |
| `FileNames.NumeralOrder` | crates/panops-engine/src/screenshots.rs:45-45 | among numerals of one length lexicographic order is numeric order |
| `FileNames.NameShows` | apps/panops-capture-mac/Sources/PanopsCaptureMac/ScreenshotExtractor.swift:88-88 | the name of a time below 2^31 is its numeral, filled to nine digits, and the extension; from there to 2^32 a negative numeral is printed |
| `Screenshots.CollectedEvenly` | crates/panops-engine/src/screenshots.rs:41-62 | every file once, in name order; the i-th of n is given i times the n-th part of the duration, in whole milliseconds |
| `Screenshots.OrderOfReadingIrrelevant` | crates/panops-engine/src/screenshots.rs:41-46 | the order in which the directory is read does not matter |
| `Screenshots.ExtractedFramesStayInOrder` | crates/panops-engine/src/screenshots.rs:41-62 | from extraction to collection: frames below 10^9 ms are collected in the order in which they were taken |
| `Screenshots.NoTwoFramesShareAFile` | apps/panops-capture-mac/Sources/PanopsCaptureMac/ScreenshotExtractor.swift:70-97 | frames at increasing times below 2^32 ms never overwrite each other |

## Left out

- JsonSchemaComplete.Complete: within the fragment; outside it the conditions of `JsonSchemaLimits`, `JsonSchemaOneOf` and `JsonSchemaUnread` are exact for one keyword at a time, over sub-schemas of the fragment, and a schema with an unsound part that no value reaches may still be sound.
- JsonSchemaComplete.ErrorKinds: which of the two errors a schema gives for a failing schema inside it is not stated.
- SidecarRpc.Ask: what becomes of an answer of more than 16 MiB depends on where its deliveries are cut, and is not stated.
- TranscriptionSteps.RegionHears: while 1000 times the number of samples fits 64 bits; beyond, the product saturates, as in the code.
- JsonSchemaUnread.UnreadSoundIff: eleven unread keywords have their meaning in `JsonSchema.UnreadOk`; the others are any predicate of the keyword, its siblings and the value. The condition is stated on a schema with no other unread keyword.
- JsonSchemaUnread.ConstIff: for the values of object and array guides the test is not structural.
- JsonSchemaOneOf.OneOfIff: the same holds of objects and arrays that two branches share.
- RegistryListing.ListingsAgree: meetings with the same start time may come in either order, as in both adapters.
- SidecarRpc.Run: the child answers every request with one line that carries its id; against other children only what `SidecarRpc.Client.SendRequest` states holds. What a child will print for a request is there from the write on, delivered when the steps say. A line that is not UTF-8 leaves the child in place, as in the code.
- FrontmatterRoundTrip.FieldsMeanTheNotes: for the date and the start time when they have the shape of a date and a time with a year of four digits.
- WsStream.ConformingStream: a message that the end of the stream cuts off has no form.
- Transcription.TranscriptOrdered: needs a recogniser whose answers are sorted and free of overlap, and regions that start no later than they end.
- Diarization.CollapsedTurns: takes turns sorted by start, which `diarize` guarantees; totals do not wrap at 64 bits, and the 5 % share is the exact rational 1/20.
- FrontmatterRoundTrip.FrontmatterReadsBack: the formatted date and start time are parameters without line feeds; how they are formatted is not modelled.
- Screenshots.ExtractedFramesStayInOrder: file names are compared by code point, which for names in one directory is the order of paths.
- EventStream.DeliveredIffFewerThan64: is exact when no entry leaves the buffer in between; with replays and unregistrations `EventStream.TerminalFirst` gives the sufficient half.
- Preview.SupersededIsNeverAdopted: covers restarts past their epoch bump; for queued ones `Preview.AdoptedLaterIff` shows that the code gives no such guarantee.
- ChangeDetection.SampleTimes: overflow of 64-bit times, a trap in the source, is not modelled; nor is it elsewhere for sums of milliseconds.
- Octets are integers from 0 to 255 and exclusive or is defined by their bits; wall-clock times, `created_at` columns and floating-point rounding are abstracted away, rates and distances being reals.
- Listing all projects, all tags, the tags or notes of a meeting: read-only queries over the same maps and tables.
- Which error value a failing storage operation returns: the adapters may differ there; that it fails and changes nothing is proved.
- Names and descriptions of compiled schemas, the order of guided properties, and Apple's own generation.
- Tokenization before the word error rate; WAV loading, the recogniser, the diarization model and the feature prints.
- Process spawning, polling, sockets, the HTTP upgrade and its accept check, mutex poisoning, and responses that cannot be encoded.
- Sections, screenshots and speaker names in the body of exported notes.
- User interface, serialization mirrors, the notes pipeline, schema migration and SQL text.
