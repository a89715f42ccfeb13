# A verified model of a Matter controller server

A Matter controller server keeps a fabric of smart-home devices: it migrates the
storage of an older server, finds devices over mDNS, translates commands between
JSON and TLV, collects Thread diagnostics, draws the network's topology, serves
firmware and follows subscriptions. This project models the algorithms and the
concurrent protocols of that server and proves what they are for.

`dafny verify dfyconfig.toml` checks everything.

## How it is built

| part | modules |
|---|---|
| shared | Wrappers, Text, Utf8, Decimal, Base64, Json, TextFormats |
| migrated storage | Replay, Store, Recovery, Namespaces, CommitLaws, Files, Segments |
| wire names | WireNaming, WireNamingProofs, WireNames, ExactRewrite, NameKeys, OverrideTable, WireNameStability |
| DNS and mDNS | DnsNames, CompressedNames, Mdns, MessageLayout, TxtProofs, MdnsProofs, MdnsContents, DialOrder |
| JSON and TLV | Tlv, FieldKinds, TlvJson, TlvJsonProofs, PayloadTokens, PayloadKeys, Epochs |
| struct tables | StructTables, Resolution, Cycles, StructClosure, Classification |
| Thread diagnostics | Diagnostics, DiagnosticsRuns, DiagnosticsProofs |
| events and topology | EventBus, Topology, TopologyProofs, TopologyBuild, TopologyTheorems, LinkStrength, Watcher |
| WebSocket client | Frames, FrameBytes, WebSockets, WebSocketProofs |
| firmware updates | Ota, OtaProvider, Ledger |
| subscriptions | Subscriptions, Monitor |
| actor | Actor |

Loops and fields that the server changes in place are methods and classes here.
Each is tied to a function of its inputs or its old state, and the properties are
proved about that function. Protocols between threads are systems of steps: a step
is what one thread does between taking a lock and letting it go, and a theorem
about a protocol holds after every sequence of possible steps.

What a format means is pinned by its published numbers and tables, apart from the code's
own functions: bytes of DNS messages and WebSocket frames, letters of base64 and UTF-8,
tokens of TLV, the JSON of a log line, the numbers of a link report.

Clocks, fresh upload ids, random masks, directory listings, socket chunks, probe
outcomes and ledger look-ups are parameters. Integers that wrap or saturate in the
server (casts of link quality and signal strength, epoch sums, lengths, tags) do so
in the model.

## Where the code is not what its words, or first sight, suggest

- The comment above the acronym table says that its order matters
  (`server/src/matter/wire_naming.rs:10-15`). It does not:
  `WireNamingProofs.OrderDoesNotMatter`.
- `collect_structs` says that it walks breadth-first (`tools/build_registry.py:249`)
  but takes names off the end of its list, which is depth-first. The result is the
  same set.
- `add_node` keeps extended addresses apart in a batch, but not routing locators:
  `Diagnostics.AddedKeepsLocatorsApart` has the exact condition.
- `_send_control` writes a frame that says something else once a ping's payload has
  more than 125 bytes (`tools/ws.py:175-178`), which a server following RFC 6455
  never sends: `Frames.ControlFrameBack` has the exact condition.
- `wire_field_name` is not idempotent: `WireNameStability.WireNameIsStable` lists the
  names it is not stable on, and proves it stable on every other.
- The watcher says that whatever changes the graph announces itself with a node
  event (`server/src/api/network.rs:274-278`), but a refresh on request writes what it
  read without one (lines 341-372), and an idle watcher learns of that only with the
  next event: `Watcher.OldGraphIsPossible` is a run that ends so, and
  `Watcher.QuietChangeGoesUnseen` says when what it sent is out of date.
- `read_image` looks its image up at every read, so an upload of the same image in the
  middle of a transfer can leave a device with a mix: `Ota.ReplacedOnTheWay` has the
  exact condition.
- Where two keys of a definition spell one tag, such as `01` and `1`, the entry that is
  replaced is resolved all the same (`server/src/matter/clusters.rs:201-207`), so
  whether some struct loses a field can depend on which struct is asked for first:
  `Cycles.OrderDecides`.
- A value reported for an epoch attribute can be written back unchanged only while
  it does not saturate: `Epochs.ReportsGoBack` has the exact condition.
- An encoded DNS name is read back only if each label takes 1 to 63 bytes; longer
  ones are cut and empty ones end the name: `DnsNames.ParsingUndoesEncoding`.

## Model
| member | source | states |
|---|---|---|
| Recovery.RecoveryIsExact | server/src/migrate/store.rs:342-380 | Opening a `wal` store gives the whole history replayed from nothing, empty contexts included, when the snapshot was taken at some position, its recorded position is that one or an earlier one (or missing), and the segments before `kept` hold nothing later. Torn and blank lines still occupy positions. |
| Recovery.RestartFromAnyEarlierLine | server/src/migrate/store.rs:366-378 | A state holding the first lines of a log is brought up to date by replaying from any line up to the next one: going over covered updates, named deletes and subtree deletes again is harmless. |
| Recovery.SkipTestIsASuffix | server/src/migrate/store.rs:358-374 | On a log in order, the test on (segment, offset) leaves exactly the lines after the recorded position: it is one such restart. |
| Recovery.CoveredSegmentsAreNotNeeded | server/src/migrate/store.rs:434-465 | Segments that hold nothing after the recorded position may be missing from anywhere in the directory without changing which lines are replayed. |
| Recovery.RecoveryAfterPruning | server/src/migrate/store.rs:342-380 | A directory from which any such segments were pruned still opens to the whole history. |
| Recovery.DamagedPositionStillRecovers | server/src/migrate/store.rs:405-428 | A snapshot whose recorded segment or offset is missing or not a number still leads to the whole history: the commits replayed needlessly change nothing. |
| Recovery.CommitsAbsorb | server/src/migrate/store.rs:467-531 | Running an operation, any other, and the first again equals leaving its first run out; so does repeating it at once. Holds for updates, named deletes and subtree deletes on any contexts. |
| Replay.RestartAnywhere | server/src/migrate/store.rs:366-378 | The abstract form of the above: for any operations with those two laws, a state that holds a prefix of the log may be replayed from any point at or before the prefix's end. |
| Store.ContextMap.ApplyCommit | server/src/migrate/store.rs:467-531 | Applying one log line in place runs exactly the operations it decodes to, in order. |
| Store.ContextMap.ApplyOp | server/src/migrate/store.rs:480-526 | One operation of a commit: an update creates its context even when it holds nothing, a named delete leaves the context standing, a delete without names takes the subtree or, with an empty key, everything; anything else is ignored. |
| CommitLaws.UpdateWrites | server/src/migrate/store.rs:473-504 | From the JSON of a line to the look-ups: after an `upd` with an object of values every written name is found with its value, every other look-up is as before, and its context is there. For a bare array and under `ops`, for any contexts. |
| CommitLaws.NamesAreDeleted | server/src/migrate/store.rs:505-514 | After a `del` with a list of names exactly those names of that one context are gone. |
| CommitLaws.TreeIsDeleted | server/src/migrate/store.rs:505-524 | After a `del` without a list exactly the contexts are gone whose dotted segments begin with those of its key, and all of them if it has none. |
| CommitLaws.OthersChangeNothing | server/src/migrate/store.rs:494-528 | Any other `op`, and an `upd` without an object of values, changes nothing. |
| CommitLaws.LineByLine | server/src/migrate/store.rs:478-492 | A line does its operations one after the other, in either form. |
| CommitLaws.OtherLinesDoNothing | server/src/migrate/store.rs:478-486 | A line that holds no list of operations does nothing. |
| CommitLaws.LoggedLine | server/src/migrate/store.rs:366-378 | Replaying a line is applying it. |
| CommitLaws.LeftAfter | server/src/migrate/store.rs:366-378 | Of a log, exactly the lines of later segments than the recorded one are applied, and of the same segment those after the recorded line. |
| CommitLaws.LinePosition | server/src/migrate/store.rs:366-378 | A line's place is its segment's id and its number from zero; torn and blank lines are counted. |
| CommitLaws.ObjectIsRead | server/src/migrate/store.rs:535-552 | The stored object, too, is read as it spells itself: a context for each member that is an object, with its values. |
| Store.ReadWal | server/src/migrate/store.rs:342-380 | The loop over segments and lines, with its skip test, computes the state that the recovery theorems are about. |
| Segments.WalSegments | server/src/migrate/store.rs:434-465 | The segments come in ascending order of their hexadecimal ids, each id once, as the last compressed copy in directory order or, where there is none, as the first plain one. |
| Segments.ChosenByPlace | server/src/migrate/store.rs:447-460 | By places in the directory: a compressed copy is chosen if no later one is, a plain one if no earlier one is and none at all is compressed. |
| TextFormats.SegmentIsRecognised | server/src/migrate/store.rs:447-460 | For every `n` below 2^32 the eight hexadecimal digits of `n`, small or capital, with `.jsonl` or `.jsonl.gz`, name segment `n`. |
| Namespaces.DeletionIsBySegments | server/src/migrate/store.rs:516-524 | Deleting a context removes exactly the paths whose dotted segments start with its own, so a sibling such as `peer10` survives the deletion of `peer1`; the empty key removes everything. |
| Namespaces.ChildContexts | server/src/migrate/store.rs:75-97 | The immediate children of a context: each distinct non-empty next segment of a stored path, once, in ascending order, and nothing else. |
| Namespaces.StoreData | server/src/migrate/store.rs:535-552 | The loops over a stored object build the contexts it spells. |
| Files.PercentDecode | server/src/migrate/store.rs:578-597 | The index walk over a file name decodes it byte by byte, as UTF-8, or refuses it. |
| Files.DecodingUndoesEncoding | server/src/migrate/store.rs:578-597 | Decoding a URI-component-encoded key (RFC 3986, section 2.1) gives the key back, for every text. |
| TextFormats.ByteIsEscaped | server/src/migrate/store.rs:578-597 | A letter, a digit or one of nine marks stands for itself in a file name, any other byte is a percent sign and two capital hexadecimal digits. |
| TextFormats.EscapedByteIsRead | server/src/migrate/store.rs:578-597 | Two hexadecimal digits behind a percent sign are read as their byte, in either case. |
| Files.NotRead | server/src/migrate/store.rs:288-308 | What is no file, the three files of the driver itself, and anything that ends in `.tmp` are not read. |
| Files.ReadFiles | server/src/migrate/store.rs:288-328 | The loop over a directory listing computes the contexts its files hold, skipping directories, reserved names, unfinished writes and files that are not JSON; one that cannot be read as text fails the whole read. |
| Files.FilesHoldTheirKeys | server/src/migrate/store.rs:288-328 | Whatever the order of the directory, a key is read if and only if its file is there, with its value. |
| Files.DriversAgree | server/src/migrate/store.rs:288-380 | One logical namespace stored as files in any order, as one object, or as a snapshot answers every lookup alike. |
| Files.DriversAgreeOnHistory | server/src/migrate/store.rs:288-380 | The same with a log: a snapshot taken anywhere along a history, with the segments left after any pruning, answers every lookup as the files and the object of what the whole history amounts to. |
| WireNamingProofs.PassesAreSimultaneous | server/src/matter/wire_naming.rs:100-128 | Running one rewrite pass per acronym, each over what the last one left, equals expanding every acronym of the original name at once, for every name and every table in which no acronym is another plus `S` and no two-letter acronym ends in `S`. |
| WireNamingProofs.TransformIsIdempotent | server/src/matter/wire_naming.rs:98-128 | An expanded name is left untouched. |
| WireNamingProofs.OrderDoesNotMatter | server/src/matter/wire_naming.rs:10-21 | Two orders of one such table give the same result for every name; the source's comment that order matters is not borne out. |
| WireNaming.ExpandAll | server/src/matter/wire_naming.rs:105-126 | One pass, scanning with `find` and copying pieces, expands exactly the occurrences that end at a word boundary and leaves every other character alone. |
| WireNaming.ToChipName | server/src/matter/wire_naming.rs:100-128 | The nested loops compute the composition of the passes, in table order. |
| ExactRewrite.RewriteIsExact | server/src/matter/wire_naming.rs:71-128 | Letter by letter, for any table of acronyms: a letter in the tail of a title becomes the acronym's capital if nothing follows the title, or no small letter, or one `s` and then nothing or no small letter; every other letter stays. |
| ExactRewrite.WordBecomesAcronym | server/src/matter/wire_naming.rs:71-128 | So a title at a word's end is rewritten whole, whatever is in front of it, and a plural `s` makes no difference. |
| ExactRewrite.TitleStaysInsideAWord | server/src/matter/wire_naming.rs:71-128 | And in the middle of a word it stays, unless another title that begins there is at a word's end. |
| ExactRewrite.ShippedTable | server/src/matter/wire_naming.rs:16-21 | The shipped table is one of acronyms, so the three laws above hold of it. |
| WireNames.TableIsCompatible | server/src/matter/wire_naming.rs:16-21 | The shipped table has the two properties that the results above rely on. |
| WireNames.ChipName | server/src/matter/wire_naming.rs:100-128 | The transform over the shipped table equals one simultaneous rewrite. |
| WireNames.ToWireFieldName | server/src/matter/wire_naming.rs:131-150 | The override look-up, the transform and the lower-casing of the first letter, as one function of the spec name. |
| ExactRewrite.FirstLetterIsSmall | server/src/matter/wire_naming.rs:131-150 | Without an override a name that opens with two capitals keeps them, and any other opens with the small letter; nothing else changes. |
| WireNames.WireNameKeepsTheKey | server/src/matter/clusters.rs:302-307 | A wire name and the spec name it comes from have the same look-up key, overrides included. |
| WireNames.LookupBySpecOrWireName | server/src/matter/clusters.rs:165-171 | A look-up by spec name, by wire name, or by any spelling with the same key reaches the same entry. |
| NameKeys.KeyOfOne | server/src/matter/clusters.rs:302-307 | Digits and small letters count as they are, capitals as small letters, and nothing else counts. |
| NameKeys.KeyOfBoth | server/src/matter/clusters.rs:302-307 | The key of two texts in a row is their keys in a row. |
| NameKeys.FirstFieldStands | server/src/matter/clusters.rs:165-171 | A look-up finds the first field with the wanted key. |
| WireNameStability.WireNameIsStable | server/src/matter/wire_naming.rs:131-150 | Taking the wire name of a wire name changes nothing if and only if the name is not one of the listed overrides that leave an acronym unexpanded. |
| WireNameStability.WireNameIsNotIdempotent | server/src/matter/wire_naming.rs:24-67 | One of them, for which a second run expands what the override left. |
| DnsNames.ParseName | server/src/matter/mdns_browser.rs:548-581 | The loop ends on every message and offset, never reads outside the message, and computes the name that the theorems below describe. |
| DnsNames.NamesAreWalks | server/src/matter/mdns_browser.rs:548-581 | A name is read if and only if some walk over labels and at most sixteen compression pointers leads from the offset to a zero (RFC 1035, section 4.1.4); it is that walk's labels joined by dots, and its end is just past the first pointer or the zero. |
| DnsNames.ParsingAdvances | server/src/matter/mdns_browser.rs:548-581 | A name that is read ends after where it starts and inside the message. |
| DnsNames.ParsingUndoesEncoding | server/src/matter/mdns_browser.rs:351-358 | Embedded between arbitrary bytes, an encoded name is read back, without its final dots and with its exact end, if and only if every label takes 1 to 63 bytes (RFC 1035, section 3.1). |
| CompressedNames.ChainIsRead | server/src/matter/mdns_browser.rs:548-581 | Byte by byte: labels of 1 to 63 bytes behind their lengths, each run of them ending in two bytes `0xC0 + target / 256` and `target % 256`, the last in a zero, are read as all the labels joined if and only if there are at most sixteen such pointers; the name ends behind the first pointer, or the zero (RFC 1035, section 4.1.4). |
| CompressedNames.PointerStandsForItsTarget | server/src/matter/mdns_browser.rs:556-563 | A pointer alone stands for the name it points to, and takes two bytes. |
| CompressedNames.FinalDots | server/src/matter/mdns_browser.rs:351-358 | Every dot at a name's end is left out and nothing else is. |
| CompressedNames.LegalInNumbers | server/src/matter/mdns_browser.rs:351-358 | The labels that can be written are those of 1 to 63 bytes. |
| DnsNames.EncodeName | server/src/matter/mdns_browser.rs:351-358 | The loop appends exactly the encoded form of the name. |
| Mdns.ParseRecords | server/src/matter/mdns_browser.rs:508-544 | Every record of a response starts after the one before it, and its data lies inside the message. |
| Mdns.RecordsAdvance | server/src/matter/mdns_browser.rs:508-544 | The same for any number of records from any offset, and never more records than announced. |
| MessageLayout.MessageIsRead | server/src/matter/mdns_browser.rs:508-544 | A message whose bytes are a header, questions and records as section 4.1 of RFC 1035 lays them out, all numbers with their high byte first, is read as exactly those records. |
| MessageLayout.ServiceIsAnnounced | server/src/matter/mdns_browser.rs:394-421 | In such a message the last service record of an instance (type 33) gives it the port in its fifth and sixth bytes and the host named behind them. |
| MessageLayout.AddressIsAnnounced | server/src/matter/mdns_browser.rs:445-480 | And an address record of that host, of type 1 with four bytes or of type 28 with sixteen, gives it an address, wherever the two stand and however the host is spelt. |
| MessageLayout.InstanceIsAnnounced | server/src/matter/mdns_browser.rs:377-393 | A pointer record of the service (type 12) makes known the instance it names. |
| MessageLayout.InstanceLabel | server/src/matter/mdns_browser.rs:482-490 | An instance goes by its name without the service. |
| MessageLayout.OnlyInstanceGetsTheAddress | server/src/matter/mdns_browser.rs:462-478 | An address of a host that no service record names goes to the only instance there is. |
| Mdns.ParseTxt | server/src/matter/mdns_browser.rs:584-611 | The loop over TXT strings ends on all data and computes the map that the next theorem is about. |
| TxtProofs.TxtComesBack | server/src/matter/mdns_browser.rs:584-611 | For any strings of 1 to 255 bytes, in front of an empty string and arbitrary bytes, of a string that is cut off, or of nothing: the data holds for each key the value of the last string with that key, an empty one for a bare key, and strings whose key is no text are passed over (RFC 6763, section 6). |
| Mdns.Browse.CollectAnswers | server/src/matter/mdns_browser.rs:361-480 | Folding a response into the instances runs the two passes over its records: names, ports, texts and hosts first, addresses second. |
| MdnsProofs.CollectingIsIdempotent | server/src/matter/mdns_browser.rs:361-480 | Folding the same response in twice is folding it in once. |
| MdnsProofs.CollectingGrows | server/src/matter/mdns_browser.rs:361-480 | No instance and no address is ever lost. |
| MdnsProofs.CollectingKeepsAddressesOnce | server/src/matter/mdns_browser.rs:361-480 | No instance ever holds an address twice. |
| MdnsContents.SubjectsAreCollected | server/src/matter/mdns_browser.rs:361-450 | Every instance that a readable pointer, service or text record of a response is about is known afterwards. |
| MdnsContents.ServicesAreCollected | server/src/matter/mdns_browser.rs:405-430 | The last service record about an instance sets its port and its host. |
| MdnsContents.AddressesAreCollected | server/src/matter/mdns_browser.rs:361-480 | An address whose host some service record of the response names is afterwards an address of the instance of the last such record, wherever in the response the two stand. |
| DialOrder.OperationalAddresses | server/src/matter/mdns_browser.rs:318-334 | Filtering, sorting by preference and removing neighbours that are equal computes the dialling order. |
| DialOrder.ArrivalDoesNotMatter | server/src/matter/mdns_browser.rs:318-334 | Each address comes once, preferred ones first, and two browses that found the same addresses for the instance give the same list, whatever the order of the packets. |
| DialOrder.PreferredComeFirst | server/src/matter/mdns_browser.rs:318-334 | Of two dialled addresses the first has the higher preference, or the same one and the smaller text. |
| DialOrder.GatheredFrom | server/src/matter/mdns_browser.rs:318-324 | An address is dialled if and only if some instance of that name, in any case, has it. |
| Base64.DecodeOfEncode | server/src/matter/tlv_json.rs:96-116 | Every byte string comes back from its base64 form (RFC 4648, section 4). |
| Base64.EncodeOfDecode | server/src/matter/tlv_json.rs:195-201 | A text that decodes at all is the one canonical base64 form of what it decodes to. |
| TextFormats.LetterIsInTheAlphabet | server/src/matter/tlv_json.rs:96-116 | The letters are those of table 1 of RFC 4648. |
| TextFormats.ThreeBytes | server/src/matter/tlv_json.rs:96-116 | Three bytes are four letters with the same 24 bits. |
| TextFormats.TwoBytes | server/src/matter/tlv_json.rs:96-116 | Two bytes are three letters and an equals sign, with their bits and then zeros. |
| TextFormats.OneByte | server/src/matter/tlv_json.rs:96-116 | One byte is two letters and two equals signs. |
| TextFormats.GroupByGroup | server/src/matter/tlv_json.rs:96-116 | Longer data is encoded three bytes at a time. |
| TextFormats.CharacterBytes | server/src/matter/mdns_browser.rs:351-358 | Texts on the wire are UTF-8: a character's number is what the four forms of section 3 of RFC 3629 make of its bytes, the shortest that will do. |
| TextFormats.TextBytes | server/src/matter/mdns_browser.rs:351-358 | And a text is its characters' bytes in a row. |
| TextFormats.DecimalDigits | server/src/matter/tlv_json.rs:109-127 | A number's text is that of its tenth and one more digit. |
| TextFormats.SignedAndPadded | server/src/matter/tlv_json.rs:222-230 | A number may be read with a plus sign or zeros in front. |
| TlvJson.FromJson | server/src/matter/tlv_json.rs:186-234 | Encoding a JSON value against a schema: the first thing that cannot be resolved is the error. |
| PayloadTokens.BytesAreSent | server/src/matter/tlv_json.rs:199-208 | For every byte string its base64 text, in a bytes field, is sent as one octet-string token with those bytes. |
| PayloadTokens.OnlyBase64IsBytes | server/src/matter/tlv_json.rs:199-208 | A text in a bytes field is refused if and only if it is the base64 of no bytes. |
| PayloadTokens.TextIsSent | server/src/matter/tlv_json.rs:199-208 | In a field of any other kind a text is sent as one UTF-8 token with that text. |
| PayloadTokens.ScalarsAreSent | server/src/matter/tlv_json.rs:186-198 | Numbers, truth values and null are sent as themselves, whatever the kind. |
| PayloadTokens.IntegersAreReported | server/src/matter/tlv_json.rs:82-91 | An integer that a device reports, signed or not, is reported as that number. |
| PayloadTokens.ListIsSent | server/src/matter/tlv_json.rs:209-214 | A list is sent as its items in their order, each by the item kind. |
| PayloadTokens.UndeclaredListIsSent | server/src/matter/tlv_json.rs:209-214 | Where no list was declared the items are of the declared kind. |
| PayloadTokens.ListOfBytesIsSent | server/src/matter/tlv_json.rs:209-214 | A list of bytes is sent as octet strings. |
| TlvJson.StructFromJson | server/src/matter/tlv_json.rs:240-262 | Members are resolved by name or by number, each against its own field's kind, and ordered by tag. |
| PayloadTokens.MemberIsSent | server/src/matter/tlv_json.rs:240-262 | A struct's only member is sent under its field's tag as a value of that field's kind. |
| PayloadTokens.BytesMemberIsSent | server/src/matter/tlv_json.rs:240-262 | A named bytes member is sent as an octet string. |
| PayloadTokens.BytesAmongMembersAreSent | server/src/matter/tlv_json.rs:240-262 | And so it is among any other members, if the payload is accepted at all. |
| PayloadTokens.KeysAreNamesOrTags | server/src/matter/tlv_json.rs:240-252 | A key is a field's name, or else the decimal number of a tag up to 255; a larger number is out of range up to 32 bits and unknown beyond. |
| PayloadTokens.PlainKeysAreTags | server/src/matter/tlv_json.rs:218-230 | Without a struct in the schema only a number from 0 to 255 will do. |
| TlvJson.CommandPayloadFromJson | server/src/matter/tlv_json.rs:268-298 | A command payload is an object, or null for no fields; anything else is refused. |
| TlvJson.Writer.Write | server/src/matter/tlv_json.rs:153-179 | Writing appends exactly the tokens of the node, containers closed. |
| TlvJson.Decode | server/src/matter/tlv_json.rs:82-130 | Reading an element computes the JSON it stands for; the names apply to the top level only. |
| TlvJsonProofs.DecodedMembersAt | server/src/matter/tlv_json.rs:109-127 | Names apply to the keys of the top level only: each member's value reads as it does without any names. |
| PayloadTokens.KeysReported | server/src/matter/tlv_json.rs:109-127 | A member is reported under its name, else its tag, and without a tag under its position. |
| TlvJsonProofs.WrittenIsRead | server/src/matter/tlv_json.rs:153-179 | Reading back what was written takes exactly its tokens, whatever follows them (Matter Core Specification, Appendix A). |
| TlvJsonProofs.DecodedIsByTag | server/src/matter/tlv_json.rs:82-130 | Decoding an encoded payload gives the original JSON with every key replaced by its tag, at every depth and for every schema. |
| TlvJsonProofs.PayloadSurvivesTheWire | server/src/matter/tlv_json.rs:153-234 | A payload that is resolved, written into a stream and read back is that JSON by tag, and the rest of the stream is untouched. |
| PayloadKeys.NamesAndTagsEncodeAlike | server/src/matter/tlv_json.rs:240-262 | Two payloads whose keys resolve to distinct tags are encoded alike if and only if they are the same JSON by tag: names and numbers are interchangeable, at every depth. |
| PayloadKeys.SortForgetsOrder | server/src/matter/tlv_json.rs:253-261 | Of members with different tags, only the set matters to the encoding. |
| Epochs.EpochsComeBack | server/src/matter/tlv_json.rs:306-315 | Writing an epoch attribute and reading it back gives max(x, offset) for every 64-bit x. |
| Epochs.OtherAttributesComeBack | server/src/matter/tlv_json.rs:306-315 | Any other attribute comes back as it was written, by tag. |
| Epochs.ReportsGoBack | server/src/matter/tlv_json.rs:65-70 | A reported epoch written back reaches the device unchanged if and only if it does not overflow 64 bits when the offset is added. |
| Epochs.EpochsInNumbers | server/src/matter/tlv_json.rs:65-70 | The offset is 30 years with seven leap days in seconds, or a million times that. |
| Resolution.Resolver.Resolve | server/src/matter/clusters.rs:188-222 | Ends on every definition table, cyclic or not; leaves the stack of active names as it was; inserts each name at most once and overwrites none; answers nothing only for a name that is undefined or on a cycle; and for a name that leads to no cycle gives its plain unfolding, whatever else the table holds. |
| Resolution.Resolver.ParseKind | server/src/matter/clusters.rs:117-139 | A kind string resolves to its scalar kind, its list, or its struct, which every field naming it shares; a struct kind falls back to the bare JSON shape only where its struct is undefined or on a cycle. |
| StructTables.KindsByName | server/src/matter/clusters.rs:117-139 | The kinds by their names, `bytes`, `string`, `int`, `float`, `bool` and the rest, and a list of each. |
| StructTables.TagsByNumber | server/src/matter/clusters.rs:201-207 | A field's tag is any 32-bit number in decimal. |
| Resolution.Resolver.ResolveKinds | server/src/matter/clusters.rs:201-207 | The kinds of a definition by tag, entries without a numeric tag left out, the last of equal tags standing. |
| StructTables.RankedWithoutCyclesAhead | server/src/matter/clusters.rs:117-139 | A name has a rank, as the unfolding asks, if and only if it leads to no struct that contains itself, whatever else the table holds. |
| StructTables.RankedWithoutCycles | server/src/matter/clusters.rs:117-139 | A whole table can be ranked if and only if none of its structs contains itself. |
| StructTables.RankedIsOnNoCycle | server/src/matter/clusters.rs:196-199 | A name that the unfolding covers is never cut short by the stack of active names. |
| StructClosure.CollectStructs | tools/build_registry.py:240-265 | The worklist ends on every set of scopes, cyclic or not, and emits exactly the structs that are reachable from the root kinds and defined, each as its nearest scope defines it. |
| StructClosure.FindDefinition | tools/build_registry.py:257-264 | The first scope with a non-empty tag enum for the struct defines it. |
| StructClosure.GatherStructs | tools/build_registry.py:317-341 | The table written for a cluster is the union over its commands. |
| StructClosure.TableIsClosed | tools/build_registry.py:317-341 | Whatever one of a cluster's structs or commands refers to is in its table if and only if some scope defines it. |
| Classification.Unwrap | tools/build_registry.py:150-155 | The loops take off the wrappers that the kinds are blind to. |
| Classification.OptionKeepsTheKind | tools/build_registry.py:150-166 | An optional type has the kind of the type itself, whatever that is. |
| Classification.ScalarTypes | tools/build_registry.py:175-178 | Rust's integers, floats and `bool` have the kinds `int`, `float` and `bool`. |
| Classification.StringTypes | tools/build_registry.py:169-172 | A type that names octet strings is `bytes`, one that names UTF-8 strings is `string`. |
| Classification.ArrayTypes | tools/build_registry.py:165-168 | An array is a list of what its items are. |
| Classification.StructTypes | tools/build_registry.py:179-185 | A struct's type, behind its path and in front of its lifetime, gives the struct kind of its name. |
| Classification.ClassifiedNamesAStruct | tools/build_registry.py:158-185 | A kind read off any type names a struct, through any number of arrays, only if that struct has a tag enum in one of the sources. |
| Classification.GeneratedKindIsInTheTable | tools/build_registry.py:281-341 | So in a generated table every struct that a kind of one of its structs or commands names is defined. |
| Classification.FallsBackOnlyOnCycles | server/src/matter/clusters.rs:196-199 | With a generated table, the resolver treats a field whose kind names a struct as a bare JSON shape only where that struct contains itself. |
| Cycles.FallsBackBetweenCycles | server/src/matter/clusters.rs:196-222 | In any table: where a resolved struct leads to a cycle of standing entries, some struct on the way has lost one that it names; and where one has, there is a cycle, if perhaps only by way of entries that a later key of the same tag replaced. |
| Cycles.FallsBackExactlyOnCycles | server/src/matter/clusters.rs:196-222 | If no replaced entry names a struct that the standing ones do not, one that a resolved struct leads to has lost a struct it names if and only if the resolved one leads to a struct that contains itself. |
| Cycles.ResolverResolvesKinds | server/src/matter/clusters.rs:188-222 | A resolver's memo is always one of which these theorems speak. |
| Cycles.OrderDecides | server/src/matter/clusters.rs:201-207 | Without that condition no table says it: replaced entries are resolved too, so of two structs one comes out with or without the other according to which was asked for first. |
| Diagnostics.Collection.AddNode | server/src/api/thread_diagnostics.rs:409-421 | A node replaces the first earlier view of the same one, or is added. |
| Diagnostics.AddedKeepsMacsApart | server/src/api/thread_diagnostics.rs:409-421 | No sequence of nodes leaves two with one extended MAC address in a batch, and no place in a batch is lost. |
| Diagnostics.AddedKeepsLocatorsApart | server/src/api/thread_diagnostics.rs:409-421 | Adding a node keeps routing locators apart if and only if it has none, or no other node than the one it replaces has it. |
| Diagnostics.PlainNodesKeepLocatorsApart | server/src/api/thread_diagnostics.rs:409-421 | A node without an extended MAC address always does. |
| Diagnostics.LocatorsMayRepeat | server/src/api/thread_diagnostics.rs:409-421 | One with such an address may not: a node sequence after which two nodes share a locator. |
| Diagnostics.Collection.TakeSnapshot | server/src/api/thread_diagnostics.rs:302-319 | An unfinished batch always says that it is unfinished; a finished one is the final batch. |
| Diagnostics.UnfinishedSaysSo | server/src/api/thread_diagnostics.rs:302-319 | It says that it waits for a first answer exactly if there is a border router and no node has answered, and otherwise that it is in progress. |
| Diagnostics.Collection.Finish | server/src/api/thread_diagnostics.rs:423-431 | Finishing sets source, reason and time together with the finished flag. |
| DiagnosticsProofs.OneRunPerNetwork | server/src/api/thread_diagnostics.rs:148-193 | In every interleaving at most one run per network has not left the in-flight map, and every asker joins it. |
| DiagnosticsProofs.RunRemovesItself | server/src/api/thread_diagnostics.rs:226-228 | A run that removes its network's entry removes its own, and the next asker starts a new run. |
| DiagnosticsProofs.WokenWaiterFindsTheEnd | server/src/api/thread_diagnostics.rs:327-340 | A waiter woken by the channel's close finds a finished batch whose entry is gone, announced exactly once, after all of the run's progress batches, which never lose a node. |
| DiagnosticsProofs.NoBatchRepeatsAMac | server/src/api/thread_diagnostics.rs:353-445 | No batch ever held, cached or announced has two nodes with one extended MAC address. |
| DiagnosticsProofs.HitsAreComplete | server/src/api/thread_diagnostics.rs:120-128 | A cache hit is the final batch of a collection that completed, never a progress batch. |
| DiagnosticsProofs.NoRunIsStuck | server/src/api/thread_diagnostics.rs:353-445 | Until it is over, a run always has a step it can take that is not another node arriving. |
| DiagnosticsProofs.RunsComeToAnEnd | server/src/api/thread_diagnostics.rs:353-445 | A run makes at most seven steps and four for each node that arrives, in every interleaving, and is over when it has made as many. |
| DiagnosticsRuns.StepKeepsRunSound | server/src/api/thread_diagnostics.rs:353-445 | What every single step of a run keeps: progress batches first, growing, then one final batch. |
| EventBus.Bus.Publish | server/src/api/mod.rs:117-120 | Each subscriber's queue gains the event, or the subscriber is cut off for good because its queue is full or nobody listens; what subscribers have received and queued stays an unbroken beginning of what was published since they subscribed. |
| EventBus.CutOffAt256 | server/src/api/mod.rs:111-120 | Only a subscriber that has gone or has 256 events waiting is cut off. |
| EventBus.Bus.Subscribe | server/src/api/mod.rs:111-115 | A new subscriber starts with an empty queue of 256 places. |
| EventBus.Bus.Receive | server/src/api/mod.rs:111-115 | Taking an event takes the oldest and loses none. |
| Watcher.IdleWatcherMatchesTheStore | server/src/api/network.rs:291-315 | While the watcher stays subscribed, waits on an empty feed, and no node event is owed, it has read the store since the last change that sends one, and the last graph it published is that of the store it read: of the store as it is, unless a refresh on request has changed it since. |
| Watcher.IdleWatcherShowsItsLastRead | server/src/api/network.rs:291-315 | In any run, with events lost or owed, an idle watcher's last graph is that of the store as it last read it. |
| Watcher.OldGraphIsPossible | server/src/api/network.rs:341-372 | A refresh that finds a node on a Wi-Fi network can leave the watcher idle on a graph that is out of date: a run from the beginning that ends so. |
| Watcher.OnlyChangesAreAnnounced | server/src/api/network.rs:307-314 | Clients are never sent the same graph twice in a row. |
| Watcher.WatcherComesToRest | server/src/api/network.rs:291-315 | Left alone, the watcher comes to rest although its own announcements reach its feed, and it stands still only on an empty feed or when it has been cut off. |
| TopologyBuild.BuildTopology | server/src/api/network.rs:374-582 | The two loops build the nodes and the links that the theorems below describe. |
| TopologyBuild.Graph.ResolveTarget | server/src/api/network.rs:586-628 | A known address gives its node's id; an unknown one gives its own id, with a node invented once. |
| TopologyBuild.Graph.MergeConnection | server/src/api/network.rs:632-649 | The second sighting of a link is folded into the first, on the side of the end that made it. |
| TopologyTheorems.GraphHoldsWhoBelongs | server/src/api/network.rs:374-471 | The graph of any list of nodes, which `BuildTopology` reaches for distinct node ids as the store hands them out: no id occurs twice, and the ids are exactly those of the nodes, of their access points, and of the strangers that their tables mention. |
| TopologyTheorems.NodesAreDescribed | server/src/api/network.rs:387-430 | Each node of the fabric is in the graph as it describes itself: its id, address, locator cut to 16 bits, network, access point, and whether it is on Thread, on Wi-Fi or on neither. |
| TopologyTheorems.GraphLinksWhoAreRelated | server/src/api/network.rs:474-571 | There is exactly one edge for each related pair, none for any other, and both ends of every edge are nodes of the graph. |
| TopologyTheorems.GraphSaysWhatWasHeard | server/src/api/network.rs:632-649 | Each direction of an edge is its end's latest report of the other, and absent if there is none; the edge is as strong as the strongest report and never ranks below either direction. |
| LinkStrength.NoWeakerThanHeard | server/src/api/network.rs:632-692 | By the reported numbers: a link is `strong` if any neighbour table of its ends gives it a quality, cut to eight bits, of three or more, or a Wi-Fi node a signal of -55 or better; with two, or -67, at least `medium`; with one, or -80, at least `weak`; and with any number at all not `unknown`. |
| LinkStrength.NoStrongerThanReported | server/src/api/network.rs:632-692 | And `strong` only if some report has three or more or -55, `medium` only with two, `weak` only with one, `none` only with zero, or the signals between. |
| Topology.RolesByNumber | server/src/api/network.rs:694-706 | The routing roles by their numbers. |
| Topology.CastsKeepTheLowBits | server/src/api/network.rs:495-575 | Reported numbers are cut to 8, 16 and 32 bits, and signal strengths to signed 16. |
| Topology.ColonsAreLeftOut | server/src/api/network.rs:586-628 | An access point's id is made of everything in its address but the colons. |
| TopologyTheorems.OrderDoesNotMatter | server/src/api/network.rs:374-582 | With extended addresses that differ, the same nodes in any order give the same set of ids and the same set of undirected pairs. |
| TopologyProofs.FirstIntroductionStands | server/src/api/network.rs:595-597 | A node of the graph is described as it was first introduced. |
| WebSockets.WebSocket.RecvExactly | tools/ws.py:116-123 | Takes exactly the next bytes of the stream, however they were cut into chunks, or reports the close. |
| WebSockets.WebSocket.RecvText | tools/ws.py:143-173 | Reading a message depends on the byte stream alone: it gives the reply, answers each ping on the way with one pong, and leaves the rest. |
| WebSockets.WebSocket.Handshake | tools/ws.py:98-110 | The headers end at the first blank line of the stream, however it was cut into chunks, and everything behind it stays for the first read. |
| WebSockets.WebSocket.SendText | tools/ws.py:125-141 | What is sent is one final text frame that unmasks to the payload. |
| WebSockets.WebSocket.SendControl | tools/ws.py:175-178 | What is sent is the control frame, unless its length does not fit a byte. |
| WebSocketProofs.MessageIsRead | tools/ws.py:143-173 | For every fragmentation of a text with pings and pongs in between, the reply is the whole text, the pings' payloads are answered in order, and what follows is untouched (RFC 6455, sections 5.4 and 5.5). |
| WebSocketProofs.CloseAndBinaryEndIt | tools/ws.py:161-169 | A close ends the conversation wherever it comes, and a binary frame is an error there, with every ping before it answered. |
| WebSocketProofs.NextMessageIsRead | tools/ws.py:143-173 | Messages in a row are read one after the other. |
| WebSocketProofs.HandshakeLeavesFrames | tools/ws.py:98-110 | Frames sent right behind the headers are all there afterwards. |
| Frames.TextFrameBack | tools/ws.py:125-141 | A sent text unmasks to its payload at all three length encodings, for every mask, and what follows is untouched (RFC 6455, sections 5.2 and 5.3). |
| Frames.ServerFrameBack | tools/ws.py:143-159 | A server's frame is read back whole at all three length encodings. |
| Frames.ControlFrameBack | tools/ws.py:175-178 | A control frame says what it was given if and only if its payload has at most 125 bytes. |
| FrameBytes.TextFrameBytes | tools/ws.py:125-141 | A text is sent as 0x81, its length in one, three or nine bytes with the top bit set, the mask and the masked payload (RFC 6455, section 5.2). |
| FrameBytes.MaskedBits | tools/ws.py:139-140 | Each bit of the masked payload is the sum of the payload's and the mask's, without carry. |
| FrameBytes.TwoByteLength | tools/ws.py:131-138 | A 16-bit length has its high byte first. |
| FrameBytes.LongerLength | tools/ws.py:131-138 | So has a longer one. |
| FrameBytes.PongBytes | tools/ws.py:175-178 | A pong is 0x8A, its length with the top bit set, the mask and the masked payload. |
| FrameBytes.TextEndsTheMessage | tools/ws.py:143-173 | A frame that begins with 0x81, or 0x80 after others, ends the message. |
| FrameBytes.FragmentGoesOn | tools/ws.py:143-173 | One with 0x01 or 0x00 adds its payload and goes on. |
| FrameBytes.PingIsAnswered | tools/ws.py:163-165 | One with 0x89 is a ping, and its payload is the next to be answered. |
| FrameBytes.PongIsPassedOver | tools/ws.py:166-167 | One with 0x8A is a pong and is passed over. |
| FrameBytes.CloseEndsTheConversation | tools/ws.py:161-169 | One with 0x88 closes, and one with 0x82 is an error. |
| Ota.Reservations.Reserve | server/src/api/ota.rs:96-119 | Expired reservations go; at most four live ones are held, and a fifth is refused. |
| Ota.Reservations.Redeem | server/src/api/ota.rs:127-147 | An id is redeemed at most once, unexpired, and by the host that reserved it; another client's attempt does not use it up. |
| Ota.HostIgnoresPort | server/src/api/ota.rs:235-241 | Two connections of one host count as the same client, whatever their ports. |
| Ota.BracketsAreKept | server/src/api/ota.rs:235-241 | A colon inside brackets belongs to the address. |
| Ota.ImageStore.Store | server/src/api/ota.rs:149-157 | The store holds at most one image per vendor, product and version, the last one stored; every other image stays as it was, in its place. |
| Ota.ImageStore.BestMatch | server/src/api/ota.rs:160-179 | The match is an applicable image of the highest version, and there is none only if nothing applies. |
| Ota.ImageStore.ReadImage | server/src/api/ota.rs:205-226 | A read copies the image's bytes from the offset on to the front of the buffer and leaves the rest of the buffer alone; no such image is told apart from no bytes left. |
| Ota.DownloadedIsAPrefix | server/src/api/ota.rs:205-226 | Over any reads and any uploads of other images, a device goes on with exactly the next bytes of the image it names, whatever the buffers; what it has is the beginning of that image if and only if it was when it went on. |
| Ota.TransferIsWhole | server/src/api/ota.rs:205-226 | With non-empty buffers such a transfer ends, and the device then has the image if and only if what it began with was some of it, or nothing. |
| Ota.ReplacedOnTheWay | server/src/api/ota.rs:149-226 | When the image itself is uploaded again between two reads, a device that reads to the end has the new image if and only if what it had received by the last such upload is the beginning of the new one. |
| Ota.MixIsPossible | server/src/api/ota.rs:149-226 | Otherwise it has some of each: a run of reads around an upload that leaves a device with such a mix. |
| OtaProvider.DesignatorBack | server/src/matter/ota_provider.rs:54-69 | Parsing a designator gives back vendor, product and version, for all values. |
| OtaProvider.DesignatorInLetters | server/src/matter/ota_provider.rs:54-69 | A designator is vendor, product and version in decimal, with dashes, and `.ota`. |
| OtaProvider.Query | server/src/matter/ota_provider.rs:141-190 | An offer names the newest applicable image in a way that reads back to it, with its size and token; there is none only if nothing applies or the buffer is too small for it. |
| OtaProvider.Read | server/src/matter/ota_provider.rs:199-211 | A read by designator gives the named image's bytes. |
| Ledger.Fetch | server/src/matter/dcl.rs:370-396 | The version fetched is the newest listed one that can be delivered; none is reported only if none can, and an error only hides versions older than the one whose look-up failed. |
| Subscriptions.LastEstablishedCounts | server/src/matter/subscriptions.rs:50-81 | After any history, a subscription id counts if and only if it is the last one established with that node and not since forgotten. |
| Subscriptions.Registry.Accepts | server/src/matter/subscriptions.rs:63-69 | Whether an id is accepted is exactly that. |
| Subscriptions.Registry.ForgetSilent | server/src/matter/subscriptions.rs:99-110 | What is forgotten is exactly what has been silent for twice its interval; every entry left is live. |
| Subscriptions.Registry.NoteReport | server/src/matter/subscriptions.rs:72-76 | A report refreshes its own node's entry and creates none. |
| Subscriptions.Registry.Judge | server/src/matter/reports.rs:65-76 | A report without an id, or on an id that does not count, is disowned; any other is accepted. |
| Subscriptions.HandleReport | server/src/matter/reports.rs:79-113 | A node's attributes change only by a report on its own standing subscription, and only that node's; a report that cannot be decoded still counts as a sign of life. |
| Monitor.Monitor.Consider | server/src/monitor.rs:91-119 | A node is visited exactly if it has a device, the registry does not hold a live subscription of it, and it is due; by the history, exactly if its subscription is silent or gone and its last visit is an interval ago. |
| Monitor.Monitor.Sweep | server/src/monitor.rs:80-88 | A pass begins by forgetting what is silent: exactly the live subscriptions are left, and exactly the others are noted as forgotten. |
| Monitor.Monitor.Meanwhile | server/src/matter/subscriptions.rs:50-81 | What happens to subscriptions between two looks is what the history gains: an establishment, a tear-down, or a report if it comes on the subscription its node has then. |
| Monitor.Monitor.Pass | server/src/monitor.rs:80-133 | After a pass over any nodes, with anything happening between its looks, the one history has gained what the sweep forgot, then turn by turn what each look or happening adds, then the end of the pass; visits stay spaced and confined to nodes that are silent or without a subscription, and nodes that are gone are forgotten. |
| Monitor.TurnIsLogged | server/src/monitor.rs:80-133 | Whatever a turn of a pass adds, an establishment for one, stands in the history from then on, right behind what the turns before it added. |
| Monitor.NoVisitWhileReporting | server/src/monitor.rs:80-119 | In the one history of subscriptions and visits, no visit to a node comes before twice the interval of its subscription has passed since it was established or since any later report on it, unless it was forgotten or replaced. |
| Monitor.SpacedOneMore | server/src/monitor.rs:103-118 | A visit that is due keeps the log of all visits such that, over any number of passes, a node that stays stored is never visited sooner than the interval for its availability at the later visit. |
| Monitor.VisitsKeepTheirInterval | server/src/monitor.rs:103-118 | In numbers: two visits to a node that stays stored are the interval apart if it is available at the later one, and the offline interval if not. |
| Monitor.VisitIsRemembered | server/src/monitor.rs:127-130 | What the monitor remembers of a node that stays stored is no older than its last visit. |
| Actor.RequestsAreConserved | server/src/matter/actor.rs:496-528 | In every run, what was sent is queued, in flight or answered, and exactly one of them. |
| Actor.AnsweredOnceAsExecuted | server/src/matter/actor.rs:472-481 | Each request is executed and answered at most once, and what a caller receives is the outcome of its own request. |
| Actor.NothingIsLeftBehind | server/src/matter/actor.rs:520-528 | When the loop has returned, every request ever sent has been answered, even if its caller had timed out. |
| Actor.ActorIsNotStuck | server/src/matter/actor.rs:496-528 | With work at hand or its channel closed, the loop can always go on until it returns. |
| Actor.ThreeStepsPerRequest | server/src/matter/actor.rs:496-528 | In every run the steps the actor has made and those it has left are three for each request sent and two more, so it can always be waited for, and when it has returned it has made exactly these. |
| Actor.EightWaitAtMost | server/src/matter/actor.rs:455 | No more than eight requests ever wait in the channel. |

## Left out

- Ledger.Fetch: speaks of the versions the ledger lists; that the entry it returns for a version carries that same version is the ledger's business.
- Subscriptions.HandleReport: the gate speaks of the moment of the verdict. The server takes its locks one after the other for the verdict, the sign of life and the write, so a subscription may be forgotten in between; here they are one step. The node store is a map of attributes per node, and what a change publishes beyond that is not part of this model.
- Monitor.Monitor.Pass: what a visit does (subscribing, or reading the node) is left to the network, and a subscription it leads to is one of the things that happen meanwhile. A look at a node is one step at one time, where the server reads its clock for liveness and dueness in turn.
- Resolution.Resolver.ResolveKinds: a definition's entries come as a list in any order, of which a table sorted by key is one.
- Sockets, HTTP, Bluetooth and file-system calls, compression, and the text form of JSON: the model starts from bytes, lines, directory listings and JSON values.
- The rs-matter stack: sessions, certificates, the bytes of TLV. TLV is a stream of tagged tokens.
- The values inside the migrated storage are opaque.
- Write errors of a full TLV buffer: the writer here has room.
- UTF-8 replacement when a WebSocket text is decoded: messages are bytes. Timeouts in the middle of a frame.
- Extended addresses and BSSIDs are taken as the text that the server renders; availability, vendor, product and bridge fields of graph nodes are not carried.
- The probe cache of Thread diagnostics and its time limits: a probe finds a capability or does not.
- The exchange of tasks with a border router (`server/src/matter/otbr_rest.rs`): a collection is any number of workers that hand over nodes.
- The regular expressions that find enums and accessors in generated Rust (`tools/build_registry.py:56-72`): a source is what they find, with the white space in types gone. What is read off a type is part of this model.
- The access list of the OTA provider, image header parsing, digests and downloads.
- Node events and their timestamps, check-ins, event history, log levels, fabric labels: plumbing, or settled by reading one branch.
- Floating-point numbers are their 64 bits; a device's not-a-number or infinity, which JSON cannot say, is not part of this model.
- Timers and priorities: steps of a protocol come in any order, so fairness is not part of any theorem.
