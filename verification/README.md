# ops-pmd, modelled and proved in Dafny

ops-pmd is the OpenSwitch daemon for pluggable transceivers. It mirrors three things: the interface
and subsystem rows of OVSDB, an in-memory table of ports, and the modules in the sockets. Each round
it brings the port table in line with the database, reads modules it has not read yet, publishes what
it found in `Interface:pm_info`, and once announces itself through `Daemon:cur_hw`.

The project has two layers.

* **Values.** `Rounds` gives one round as a function of the database, the tables and the pages read,
  and defines a run: initialisation on some database, then any sequence of environment steps and
  rounds. `Passes`, `Runs` and `Theorems` prove what holds over all runs. `PortModel` says what each
  operation makes of one port; `SerialId`, `Checksum`, `Hex`, `Decimal`, `Bits`, `Dom` and `Presence`
  hold the byte, bit and text work.
* **Objects.** `Columns` models the C heap and the ownership of column strings, `Ports` is `pm_port_t`
  with the column macros and the code that works through them, `Daemons` is the daemon with its tables
  of port objects and its main loop. Every method is proved to do to the state what the value layer
  says, so the theorems about runs are theorems about the loop. The class invariants carry the
  ownership result: at every point the live column blocks are exactly those owned by the columns of the
  ports in the table. `Heap.Free` demands a live block, so a double free, a free of a literal or of a
  dangling address would be a failed proof.

The main results, all for every run (any initial database, any row additions, deletions, same-name
recreations and edits, any lock history, any pages, any answers of the YAML library in each pass):

* after each locked round every port has its live row under its own name and that row's laser setting,
  the subsystem table is exactly the live subsystems, and every interface they list and describe has its
  port, unless the read of its subsystem failed in the last pass;
* at every point a live interface has a port if and only if initialisation or some full pass since saw it
  listed by a subsystem, readable or entered before, whose description calls it pluggable; a port outlives
  that listing;
* skipping the pass on an unchanged sequence number is invisible, exactly under a stated condition;
* between rounds no port is marked, and the row of a parsed port shows exactly its published columns;
* the `pm_info` of an interface is written in the first locked round its port takes part in and never
  again, with the classification of the page read in that round; module data never changes afterwards;
* `cur_hw` is set once, and only when all known ports are published;
* what is published is given in literal texts for every case of the page's bits, and the laser flag and the
  diagnostics request likewise;
* enable registers always agree with the remembered configuration, and after a round with the database;
* no column block leaks, is freed twice, or is shared.

## Assumptions

* Row uuids are never reused; interface and subsystem names are unique and do not change while a row
  lives; a subsystem lists live interfaces; nobody else writes `pm_info`. These are the clauses of
  `DbOk` and `EnvStep`; `Rounds.RecreationAllowed` shows that they admit the hardest environment move.
* The database does not change between `ovsdb_idl_run` and the commit of one round, and commits succeed.
* Every change the daemon is alerted to changes the sequence number. The 32-bit counter is unbounded
  here, which excludes exactly 2^32 changes between two rounds.
* The YAML library is foreign: each pass brings its own outcomes, which reads fail and which ports are
  found, and no relation between the outcomes of different passes is assumed. Within one pass a lookup
  has one answer. Files are read when a subsystem is entered and at no other time. That ports can be
  found after a failed read is the exact exception in `Theorems.ShortcutSound`; it happens when
  `yaml_parse_ports` fails after storing some ports (src/config.c:179), or when `yaml_add_subsystem`
  refuses a subsystem that was deleted and created again, because the data of the deleted one is never
  removed (src/ovsdb_access.c:787).
* A pluggable YAML port names a connector (src/plug.c:268 passes it to `strcmp`).
* `char` is signed; bitfields are laid out lowest bit first.
* The enable register is the one of the simulation build; reading a module follows the hardware build,
  with an arbitrary page as input and zeros for a failed read.

## Where the code differs from its documents

* DESIGN.md:6 promises detection of removals, and tests/test_pmd.py:205-209 expects an `absent` connector:
  the guard at src/plug.c:283 is switched off, and `Theorems.ModuleDataFixed` proves that a module once
  read is never revisited while its interface exists.
* tests/test_pmd.py:58-61 expects a corrupted page to be reported as unknown: check codes are not
  consulted (src/plug.c:325-345), and `PortModel.PublishedDependsOn` proves what is published to be
  independent of them.
* The comment at src/ovsdb_access.c:791 announces added and deleted subsystems, but the loop below it only
  adds, and src/ovsdb_access.c:757-771 drops a port only when its interface row is gone:
  `Theorems.PortOutlivesListing` is an instance and `Theorems.PortsExactly` the exact rule.
* The comment at src/plug.c:132 speaks of five retries; there are two (`Presence.GetPresence`).
* `pm_parse` changes the page it reports (src/pm_detect.c:173): `PortModel.KeptPage` gives the exact
  condition under which the copy in `a0` still has a good check code.
* A daemon row that is deleted and created again does not get its `cur_hw` back: this is one direction of
  `Theorems.ReadyOnlyWhenPublished`.
* `SET_FLOAT_STRING` compares through `strtol`, which stops at the decimal point: `Dom.FractionStale` is
  the exact condition for a stale reading, `Dom.StaleVoltage` an instance.
* `atoc` repeats the last byte of a file without a final newline: `Hex.AtocRepeatsLast`.

## Model

| member | source | states |
|---|---|---|
| Theorems.TablesFollowDatabase | src/ovsdb_access.c:741-805 | after every locked round of every run: each key is its port's instance name, its uuid is a live row of that name, the laser is remembered as on exactly if that row's configuration has "true" under "enable", the subsystem table is exactly the live subsystems, and every interface that a subsystem lists and the library calls pluggable has its port, unless that subsystem was new in the last pass and its read failed |
| Theorems.PortsExactly | src/ovsdb_access.c:757-794 | at every point of every run, for every live interface: it has a port if and only if initialisation or the full pass of some earlier step saw it listed by a subsystem, readable or entered before, whose description calls it pluggable |
| Theorems.PortOrigin | src/ovsdb_access.c:69-121 | at every point of every run each port was described by initialisation or by an earlier full pass: it belongs to the first subsystem in iteration order that served its interface, with the device found there |
| Theorems.PortOutlivesListing | src/ovsdb_access.c:757-771 | a concrete run in which the only subsystem row is deleted and the next full pass keeps the port that no subsystem lists any more |
| Theorems.ShortcutSound | src/ovsdb_access.c:751-755 | in every reachable state with an unchanged sequence number, returning early leaves the same port table, registers and subsystem table as a full pass on the same handle if and only if no interface of a subsystem whose read failed in the last pass is waiting; the pass would read no file |
| Theorems.ShortcutInvisible | src/ovsdb_access.c:751-804 | every locked step of the daemon equals the step of one that repeats the full pass in each locked round, under exactly that condition |
| Theorems.UnreadableSubsystem | src/ovsdb_access.c:168-175 | a concrete reachable state in which the early return and the full pass differ, given a library that finds ports after a failed read |
| Theorems.RegistersFollowDatabase | src/ovsdb_access.c:52-67 | after every locked round a QSFP register is 0x00 and any other 1 if the port's own row has "true" under "enable"; with the key missing or any other text they are 0x0f and 0 |
| Theorems.RegisterInvariant | src/plug.c:438-462 | at every point of every run the register is the function of the remembered configuration |
| Theorems.FlagsCoherent | src/ovsdb_access.c:204-655 | between rounds no port is marked, and a parsed port's live row holds exactly the map of its non-NULL published columns |
| Theorems.AllPublished | src/pmd.c:90-123 | after a locked round every port with a known socket is parsed and published, and every other port has no module data |
| Theorems.WrittenOnce | src/ovsdb_access.c:222-224 | step i writes the row's `pm_info` if and only if the port takes part in round i with a known socket and took part in no earlier round |
| Theorems.WrittenExactlyOnce | src/ovsdb_access.c:650-654 | an interface whose port has taken part in a round has exactly one writing step in the run |
| Theorems.WrittenValue | src/plug.c:305-348 | what that step writes is the map of the page this module delivered in that round, of 128 zero bytes if it delivered none; the rest of the row and every other row stay as they were |
| Theorems.ModuleDataFixed | src/plug.c:300-365 | once a port has been read, all later states have the same columns, flags and presence for that uuid |
| Theorems.ReadyOnlyWhenPublished | src/ovsdb_access.c:657-668 | `cur_hw` is set in step i if and only if it is the first locked round that finds the daemon's row; then every known port's module information is in the database |
| Theorems.DaemonTable | src/ovsdb_access.c:657-666 | a round sets the `cur_hw` of the row "ops-pmd" to 1 in the first locked round that finds it, and changes nothing else of the daemon, subsystem or bookkeeping data in any round |
| Theorems.FirstReadDecides | src/plug.c:300-361 | the page of the first round a port takes part in decides, for as long as the interface lives, its columns, its laser flag, and the request for diagnostics, which is given in numbers of byte 92 |
| Theorems.UnreadPortBlank | src/ovsdb_access.c:91-106 | at every point of every run a port not yet read has no columns, no diagnostics request and no laser flag |
| Runs.RunInv | src/pmd.c:208-220 | the state invariant holds at every point of every run |
| Runs.StepKeepsInv | src/pmd.c:90-123 | every environment step and every round keeps the invariant, and a locked round settles the tables |
| Runs.LockedRoundSettles | src/pmd.c:108-118 | reconfigure, scan and publish together end in sync, with all known ports read and shown |
| Runs.RoundRow | src/ovsdb_access.c:204-655 | a row is rewritten exactly when its port was read in this round, with the columns of that page |
| Runs.RoundKeepsDb | src/ovsdb_access.c:191-671 | publication keeps the database well formed |
| Runs.ReadCases | src/plug.c:300-361 | one port through scan and publication: read exactly when its socket is known and it was not read before, and then its columns are those of the page |
| Passes.FullPassSyncs | src/ovsdb_access.c:757-804 | from any tables a changed database can leave behind, the pass synchronises and keeps the module data of ports with live rows |
| Passes.FullPassIdempotent | src/ovsdb_access.c:757-804 | on synchronised tables a further pass on the same handle changes nothing if and only if no interface of a subsystem whose read failed is waiting; otherwise it adds ports |
| Passes.ProcessSubsGrows | src/ovsdb_access.c:791-794 | the subsystem loop keeps every port, adds only described ones, enters every subsystem, and serves all that were entered before or whose read succeeds |
| Passes.SubsBecomeExact | src/ovsdb_access.c:773-789 | pruning and processing make the subsystem table exactly the live subsystems, recreated names included |
| Passes.OwnRow | src/ovsdb_access.c:796-804 | the row found by a port's name is the port's own row |
| Passes.InitSyncs | src/ovsdb_access.c:807-829 | initialisation leaves the tables in sync, with nothing read yet and only described ports |
| Rounds.PublishDetermined | src/ovsdb_access.c:204-655 | when ports go by the names of their rows, the publication loop has one outcome whatever the table order |
| Rounds.PrefixIsRun | src/pmd.c:208-220 | every prefix of a run is a run, so what holds at the end of every run holds at every point |
| Rounds.RecreationAllowed | src/ovsdb_access.c:757-771 | deleting an interface and creating it again under its name, with any configuration, is an admitted environment step |
| Daemons.MainLoop | src/pmd.c:208-220 | for every run, initialisation and the rounds on port objects end in exactly the run's state, with the heap invariant |
| Daemons.Daemon.Run | src/pmd.c:90-123 | without the lock nothing changes; with it, from any tables, reconfigure and scan lead to the state that is published; from every state of a run the outcome is exactly one round of the model |
| Daemons.Daemon.Reconfigure | src/ovsdb_access.c:741-805 | the loops over tables and rows, in any table order, compute the modelled pass |
| Daemons.Daemon.SubsysProcess | src/ovsdb_access.c:154-189 | enters a new subsystem, stops on unreadable files, creates missing ports |
| Daemons.Daemon.IntfCreate | src/ovsdb_access.c:69-121 | creates a zeroed, configured port for a described pluggable interface, and nothing otherwise |
| Daemons.Daemon.VisitRows | src/ovsdb_access.c:796-804 | matching rows to ports by name, in any order, applies each row to the port of that name exactly once |
| Daemons.Daemon.DropDeleted | src/ovsdb_access.c:757-771 | removes and frees exactly the ports whose row is gone |
| Daemons.Daemon.DropPort | src/ovsdb_access.c:673-679 | a freed port leaves no block behind and touches no other port's blocks |
| Daemons.Daemon.DropDeletedSubs | src/ovsdb_access.c:773-789 | removes exactly the subsystems whose row is gone |
| Daemons.Daemon.Initialise | src/ovsdb_access.c:721-739 | the initial configuration computes the modelled initial state |
| Daemons.Daemon.ReadState | src/plug.c:415-429 | the scan, in any table order, reads each port once with the page its own module delivers, or with zeros |
| Daemons.Daemon.OvsdbUpdate | src/ovsdb_access.c:191-671 | from any tables and in any table order: a row with marked ports shows the columns of one of them, every other row is unchanged, a mark survives exactly if its row is gone, and `cur_hw` of "ops-pmd" becomes 1 if it was never set, otherwise the daemon table is unchanged; one outcome when ports go by their rows' names |
| Daemons.Daemon.HeapExact | include/pmd.h.in:213-281 | live blocks are exactly the non-NULL owned columns of the ports in the table; no two ports and no two columns of a port share one; static columns hold literals |
| Ports.Port.constructor | src/ovsdb_access.c:91-106 | a new port owns nothing and, once configured, is the modelled new port |
| Ports.Port.SetStatic | include/pmd.h.in:215-217 | assigns a literal, marks the port, leaves the heap alone |
| Ports.Port.SetString | include/pmd.h.in:220-227 | compare-and-skip is a plain assignment that marks the port exactly when the text changes; the old block is freed and the new one owned |
| Ports.Port.SetInt | include/pmd.h.in:230-236 | the same for numbers compared through `strtol` |
| Ports.Port.SetBinary | include/pmd.h.in:262-267 | stores the hexadecimal text of the bytes in an owned block |
| Ports.Port.Delete | include/pmd.h.in:270-274 | on a static column: clears it, marks the port if there was anything, and leaves the heap alone |
| Ports.Port.DeleteFree | include/pmd.h.in:276-281 | on an owned column: frees its block, clears it, marks the port if there was anything |
| Ports.Port.BuildSpeeds | src/pm_detect.c:92-102 | of all the intermediate texts only the final list survives on the heap |
| Ports.Port.SetSupportedSpeeds | src/pm_detect.c:78-107 | replaces the column by the list's text, by NULL for an empty list |
| Ports.Port.DeleteAllData | src/plug.c:95-112 | clears every column but the connector; no block of the port remains |
| Ports.Port.SetKind | src/pm_detect.c:470-601 | the classification switches write the columns of the page's kind |
| Ports.Port.SetQsfpVendor | src/pm_detect.c:407-458 | the vendor columns of a QSFP page |
| Ports.Port.Parse | src/pm_detect.c:126-668 | parsing a page in memory gives the modelled columns, mark and return code, and changes the page by the forced bit exactly when the port is pluggable with a known socket |
| Ports.Port.ReadModuleState | src/plug.c:243-365 | reads and parses a port once, then leaves it alone |
| Ports.Port.BuildMask | src/plug.c:445-452 | the mask loop computes the split mask |
| Ports.Port.Configure | src/plug.c:589-608 | writes the register value of the remembered configuration |
| Ports.Port.Modify | src/ovsdb_access.c:123-138 | takes over a changed laser setting and its register |
| Ports.Port.BuildPmInfo | src/ovsdb_access.c:226-248 | the published map has exactly the non-NULL ones of four columns |
| PortModel.ParsedConsistent | src/pm_detect.c:175-661 | for every page and known socket: supported iff the connector is not unknown iff the speed is not 0; optical implies supported; supported speeds and maximum speed have the same text |
| PortModel.ParseForgets | src/pm_detect.c:351-661 | the columns a QSFP parse handles depend on the page alone |
| PortModel.Qsfp28FallsBack | src/pm_detect.c:556-601 | without the extended bit a QSFP28 port parses as a QSFP+ port |
| PortModel.VendorRoundTrip | src/pm_detect.c:407-458 | names written into the padded vendor fields of a QSFP page come back in the columns, and the OUI column reads back as bytes 37 to 39 |
| PortModel.PublishedIsClassification | src/ovsdb_access.c:236-248 | the published map, key by key, is connector, status and speed of the page's classification |
| PortModel.SfpPublishes | src/pm_detect.c:249-259 | any page in an SFP+ socket publishes "SFP_SR", "supported" and "10000", with a laser |
| PortModel.QsfpPublishes | src/pm_detect.c:351-402 | for each case of bits 1 to 3 of byte 3 the four published texts, literally, and the laser flag |
| PortModel.Qsfp28Publishes | src/pm_detect.c:463-601 | with the extended bit, for each code in byte 64 the four published texts, literally, and the laser flag |
| PortModel.PublishedColumns | src/ovsdb_access.c:226-248 | what is published after a parse is that of the page's columns alone |
| PortModel.ParseTouches | src/pm_detect.c:175-661 | a parse keeps the diagnostics columns and, for SFP+, the OUI, deletes the cable and power columns, and changes nothing of the port but mark and laser flag |
| PortModel.RetryReadsAgain | src/plug.c:300-361 | a port marked for retry is read and marked again, and keeps an earlier request for diagnostics |
| PortModel.PmInfoShows | src/ovsdb_access.c:236-248 | for any columns, each of the four keys is present exactly if its own column is, and shows that column |
| PortModel.SfpVendorTexts | src/pm_detect.c:294-346 | the vendor columns of an SFP+ port are four fixed texts |
| PortModel.ParseUnknownSocket | src/pm_detect.c:162-168 | a connector that is none of the three leaves the connector column "unknown", no other column, and return code -1 |
| PortModel.PublishedDependsOn | src/pm_detect.c:249-259 | the published map depends on bytes 3 and 64 only, for SFP+ on nothing |
| PortModel.KeptPage | src/pm_detect.c:461 | the a0 text decodes to the page with bit 4 of byte 3 set and no other change; a good page keeps good check codes exactly when the bit was set before |
| PortModel.IntSkipIsTextSkip | include/pmd.h.in:230-236 | on texts the macro itself wrote, comparing numbers is comparing texts |
| PortModel.SplitMaskBits | src/plug.c:447-451 | for any subport vector bit i of the mask is set exactly when lane i is disabled |
| PortModel.SplitMaskUniform | src/plug.c:453-459 | with all lanes equal the split mask is the unsplit one |
| PortModel.SplitRegister | src/plug.c:445-461 | configuring a split QSFP port sets exactly the disable bits of its disabled lanes |
| Columns.Remove | include/pmd.h.in:276-281 | freeing and clearing a column keeps ownership, removes that text only, and touches no foreign block |
| Columns.Replace | include/pmd.h.in:224-225 | freeing, allocating and storing keeps ownership, changes that text only, and touches no foreign block, even if the allocator reuses the address |
| Columns.OneTouched | include/pmd.h.in:213-281 | when one of any number of ports works on its own blocks, the heap stays divided between all of them and the others keep their texts |
| Columns.NeighbourKept | include/pmd.h.in:213-281 | two ports with separate blocks stay separate when one works on its own blocks, and the other keeps its texts |
| Columns.Heap.Free | include/pmd.h.in:276-281 | frees one live block |
| SerialId.Classify | src/pm_detect.c:351-402 | the decision is consistent: supported iff known iff a speed, optical only if supported |
| SerialId.ForceSrKeepsKind | src/pm_detect.c:173 | the forced bit never alters a classification |
| SerialId.ForceSrChecksum | src/pm_detect.c:173 | a good page stays good exactly when the bit was set, otherwise one check fails |
| SerialId.WantsA2Exact | src/pm_dom.c:45-69 | diagnostics are requested exactly if bits 5, 6 and 3 of byte 92 are set and bit 2 is not (SFP+), or bit 3 is set (QSFP), stated as quotients of the byte |
| SerialId.StripField | src/pm_detect.c:407-417 | the in-place strip loop, with the C string read from the buffer, yields the stripped field |
| SerialId.FieldTextExact | src/pm_detect.c:424-458 | for every width and NUL-free field the text is the unique string that padded is the field and does not end in a space; one space for an all-space field |
| SerialId.StripIdempotent | src/pm_detect.c:411-415 | stripping twice is stripping once |
| SerialId.OuiText | src/pm_detect.c:112-121 | the formatted OUI with its NUL fills the nine-byte buffer exactly, its digits are lower case, and its pairs read back as the three bytes |
| Hex.HexToAscii | src/pm_detect.c:52-76 | for every length all stores stay inside the allocation, the text has 2n + (n-1)/4 characters and is terminated |
| Hex.AsciiTable | src/pm_detect.c:45-46 | the digits are those of the table, upper case |
| Hex.HexRoundTrip | src/pm_detect.c:67-73 | dropping spaces and decoding pairs returns the bytes |
| Hex.Atoc | tests/files/atoc.c:51-60 | the read loop, with `fread` at end of file, computes the modelled output |
| Hex.AtocDecodes | tests/files/atoc.c:51-60 | a digit text ended by a newline decodes to its bytes, whatever follows |
| Hex.AtocRestoresPage | tests/files/atoc.c:51-60 | `atoc` on the text of `hex_to_ascii` without its spaces returns the bytes |
| Hex.AtocRepeatsLast | tests/files/atoc.c:51-60 | without the newline the last byte comes twice |
| Checksum.ByteSum | src/pm_detect.c:674-689 | the wrapping accumulator compares the true sum modulo 256 |
| Checksum.SfppSumVerify | src/pm_detect.c:694-705 | counts the failing checks |
| Checksum.OneByteNoticed | src/pm_detect.c:694-705 | changing one of bytes 0-95 of a good page fails exactly one check |
| Checksum.BlindSpots | src/pm_detect.c:694-705 | reordering covered bytes or changing the vendor area is never noticed |
| Checksum.BlankPagePasses | src/pm_detect.c:694-705 | the page of zeros a failed read leaves passes both checks |
| Decimal.DecRoundTrip | include/pmd.h.in:230-236 | `strtol` with base 0 inverts `%d` on every int |
| Decimal.StrtolPrinted | include/pmd.h.in:239-245 | also with text behind the number |
| Decimal.SpeedTexts | src/pm_detect.c:463-601 | the four speeds print as the published texts |
| Decimal.StrtolSaturates | include/pmd.h.in:230-236 | a number outside the range of `long` is read as the end of the range |
| Decimal.StrtolForms | include/pmd.h.in:230-236 | blanks and a sign are skipped, a leading zero selects base 8, a point ends the number |
| Decimal.HexTextReadsAsSpeed | include/pmd.h.in:230-236 | a text for which skipping would not be an assignment, so the column discipline is needed |
| Decimal.SpeedsRoundTrip | src/pm_detect.c:92-102 | splitting and parsing the speeds text recovers every non-empty list |
| Presence.GetPresence | src/plug.c:114-168 | at most three reads, each but the last failed; the answer is whether the first successful one was not zero |
| Dom.WordIsBigEndian | src/pm_dom.c:158-160 | a reading is 256*msb + lsb |
| Dom.WordOrder | src/pm_dom.c:158-277 | readings and thresholds compare as their bytes do |
| Dom.DegreesIsFloor | src/pm_dom.c:123-126 | the temperature, between -128 and 127, is the two's complement word rounded down to whole degrees |
| Dom.SfpLayout | src/pm_dom.c:122-277 | one offset and bit rule gives the readings, thresholds and flags of all five SFP+ quantities |
| Dom.QsfpLayout | src/pm_dom.c:296-419 | one offset and nibble rule gives the readings and flags of all four QSFP lanes |
| Dom.QsfpMonitorsExact | src/pm_dom.c:286-294 | the QSFP temperature is the signed word of bytes 22-23 rounded down to whole degrees, the voltage the word of bytes 26-27 |
| Dom.TemperatureFresh | include/pmd.h.in:239-245 | the skip test never leaves a stale temperature |
| Dom.FractionStale | include/pmd.h.in:239-245 | for all readings and every rounding to the nearest hundredth: the text is current if and only if it is not the case that a whole number replaces a text with the same integer part and a fraction |

## Left out

- I2C transfers, sleeps, reset writes and the YAML parser: foreign code, present as arbitrary outcomes or a lookup.
- OVSDB transaction retry and commit failure: the code ignores the commit status.
- Command line, unixctl commands, debug dump and logging.
- Absence handling, read-failure handling and check-code rejection in `pm_read_module_state`: disabled in the source.
- The SFP+ classification branches that are switched off or shadowed, and what `memcpy` reads behind the short vendor literals (it follows their NUL).
- `pm_parse` with a NULL connector: the same field is passed to `strcmp` before it gets there.
- Writing of QSFP disable bits on hardware, which is skipped for absent or non-optical modules (src/plug.c:468-474).
- Storage of DOM columns on the heap and the binary rounding of `float`; `pm_set_a2` is not reached from the loop.
- Strings for `instance` and `subsystem`, of which the latter is never freed.
- `pm_create_a2_devices`: its call is commented out.
- Ports.Port.SetInt: is stated for the columns this macro alone writes; `Decimal.HexTextReadsAsSpeed` shows why a foreign text could survive the comparison.
