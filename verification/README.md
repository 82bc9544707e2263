# Verified models of codexSync

codexSync moves the state of Codex between machines. This project models the parts of it that are
hard to get right and proves what they promise: journaled writes that survive any failure, text
edits that touch nothing else, translations that keep a meaning, protocols between machines that
share only files, and loops over time and over graphs. `dafny verify dfyconfig.toml` checks it all.

| files | what they model |
|---|---|
| `Envelope`, `Catalogue`, `Retention` | the write envelope around Codex's state file and its thread catalogue, and the backups it relies on |
| `TomlGrammar`, `TomlScanner`, `TomlLocality`, `TomlLaws`, `TomlRender`, `TomlEdit`, `TomlAdd`, `TomlOutcome` | the config editor: a scanner, a printer, and edits by offsets |
| `Glob`, `Migrate`, `MigrateLaws`, `Versions`, `VersionOrders`, `DesktopEntry` | translations with a meaning to preserve |
| `ChatNames`, `ChatNameRuns`, `ArchivePaths`, `Archive` | chat names and archive moves that follow from machine to machine |
| `Guardian`, `GuardianAccept` | the shrink rule, its chain of snapshots, and a person's override |
| `Delivery`, `Watcher`, `Ancestry` | a bounded wait, an edge detector, an ancestor search |
| `Runs`, `Texts`, `Decimal`, `Wrappers` | what they share |

How to read them. Code that changes things step by step is a method or a class here, tied by its
`ensures` to a function or a set of rules; what the code promises is proved of that function or of
every run that follows those rules. A call that may raise, and a choice the model leaves to the
world, is what a given but arbitrary oracle holds for that call, counted in order, so that a method
must do its work whenever the world lets it. In the protocols a power loss is a run that stops
anywhere: the theorems speak of every state of every run. Where a property fails in a corner of the code, the
model keeps the code as it is, a lemma names the failing case, and the theorem states exactly when
the property holds:

- A plain program path that ends with a line break is written unquoted into a desktop entry, because
  `$` in the plain-argument pattern also matches before a final line break; it cannot be read back
  (`DesktopEntry.ExecRoundTrip`, `ExecBreaks`).
- Closing the catalogue's connection may raise after COMMIT took effect; the journal then ends in
  FAILED although rows changed. A FAILED catalogue is as the others left it exactly when closing did
  not raise after the commit or the plan changes nothing (`Catalogue.FailedMeans`,
  `Database.WriteCatalogue`, `FailedAfterCommit`).
- A chat file whose name has `..` where month and day stand leads out of `sessions/`, so a row can be
  flagged active for a file that lies in the state folder itself (`Archive.ChangedRowIsRight`,
  `ClimbingName`).
- The Debian spelling of versions keeps the PEP 440 order except between a development release and
  an alpha or beta of the same release (`VersionOrders.PackageVersionKeepsOrder`).
- Once its second pass has begun, retention leaves a newest-first prefix within its limits exactly
  when none of the names its two passes set out to remove is left; stopped before, exactly when
  nothing past the age limit is left and what is left is not too much. A folder that cannot be
  removed stays, may get a new modification time, and then pushes a good snapshot out
  (`Retention.PrunedExactly`, `StoppedExactly`, `BackupManager.Prune`, `OneFailurePushesOut`).
- A machine writes a chat's name a second time only where the name it wrote first equals the chat's
  title there, which counts as no name; with every peer file staying readable that cannot happen,
  with one that becomes unreadable it can (`ChatNameRuns.SecondWriteOverTitle`, `AtMostOnce`,
  `WrittenTwice`).

The comments of the source and the models agree except on the second point: the comment in
`_close_journal_after_failure` says that its operation replaced nothing, and the catalogue writer
also calls it when closing the connection raised.

## Model

| member | source | states |
|---|---|---|
| Envelope.JournalsEnd | src/codexsync/mutation_journal.py:218-234 | in every run COMMITTED and FAILED are final, and COMMITTING leads to FAILED only through RECOVERY_REQUIRED |
| Envelope.StepKeeps | src/codexsync/app.py:797-876 | each action the rules allow keeps the invariant: others' content or the whole candidate in the file, and while the candidate is there, the original in the backup and a journal that says the commit was entered |
| Envelope.EveryStateIsSafe | src/codexsync/app.py:797-890 | in every state of every run that follows the rules, wherever it stops, the file holds others' content or the whole candidate; FAILED means no net effect, COMMITTED a candidate that validates |
| Envelope.ReplacesFollowGate | src/codexsync/app.py:828-876 | before every replace attempt there is a passed process check; of codexSync's own actions only the comparison and, before a rollback, the copy of the backup stand between the two, and other programs may write there |
| Envelope.Operation.RequireSafeToReplace | src/codexsync/app.py:828-838 | passing proves both the process check and that the file still holds the original, and it passes when neither call raises and nobody wrote anything else |
| Envelope.Operation.BackUp | src/codexsync/app.py:814-819 | succeeds only with a backup that equals the original, whoever wrote the file meanwhile, and does when no call raises and the file holds the original |
| Envelope.Operation.Transition | src/codexsync/mutation_journal.py:218-234 | succeeds exactly along an edge of the journal's graph when the write does not raise, and otherwise leaves the journal as it was |
| Envelope.Operation.ReplaceWithRetry | src/codexsync/fs_replace.py:46-68 | at most seven attempts, each after the check proved anew; success is the new bytes in place, failure nothing changed by codexSync; undisturbed it fails only after seven attempts that found the target locked |
| Envelope.Operation.CloseJournalAfterFailure | src/codexsync/app.py:879-890 | closes through RECOVERY_REQUIRED where COMMITTING was reached, only for an operation that has nothing in place; ends in FAILED unless a transition of its own raises |
| Envelope.Operation.Install | src/codexsync/app.py:840-853 | the flag its handler reads says exactly whether the candidate is in place, however the phase ended; undisturbed it fails only for a candidate that does not validate or a target locked for all attempts |
| Envelope.Operation.RollBack | src/codexsync/app.py:862-876 | ends in FAILED only with the original back in place, and does so unless a call of its own raises, another program changes the file, or the target stays locked for all seven attempts |
| Envelope.Operation.CommitGlobalState | src/codexsync/app.py:771-876 | with a fault at any call: returns only with the candidate committed and valid; every state passed through is safe; at most fourteen replace attempts, each behind its check; with no fault it commits exactly a candidate that validates and ends any other in FAILED with the original back; whatever failed, a handler whose own calls pass leaves no journal open |
| Catalogue.OthersStay | src/codexsync/chat_names.py:196-211 | an applied plan adds and drops no row and changes none it does not name |
| Catalogue.ApplyAllIs | src/codexsync/chat_archive.py:190-211 | a plan with one change a row goes through exactly when every row still matches its guard, and then every planned row is the old row updated |
| Catalogue.PlanInColumns | src/codexsync/chat_archive.py:190-211 | column by column: a plan goes through exactly when every row is there with the path and flag, or the name, its change expects; then a followed row has the planned path, flag and time and keeps its name and title, a named row has the planned name and keeps all else, and every other row stays |
| Catalogue.ReadBackInColumns | src/codexsync/app.py:2205-2208 | the read-back passes exactly if every planned column holds its planned value |
| Catalogue.AppliedReadsBack | src/codexsync/app.py:2205-2208 | a plan that went through passes the read-back check |
| Catalogue.EveryStateIsSafe | src/codexsync/app.py:2169-2211 | in every state of every run the catalogue is the others' or the others' with the whole plan applied; COMMITTED means the latter; FAILED means the former where closing did not raise after the commit, and the latter where it did |
| Catalogue.FailedMeans | src/codexsync/app.py:2194-2211 | in every run that ends in FAILED the catalogue is as the others left it exactly when closing did not raise after the commit or the plan changes nothing |
| Catalogue.Database.Apply | src/codexsync/chat_names.py:189-214 | one row that no longer matches rolls back all updates before it; it returns normally exactly when the whole plan is in place, and when nothing disturbs it exactly when every row matches |
| Catalogue.Database.CloseJournalAfterFailure | src/codexsync/app.py:879-890 | ends in FAILED unless a transition of its own raises |
| Catalogue.Database.WriteCatalogue | src/codexsync/app.py:2140-2211 | with a fault at any call: COMMITTED means the plan and nothing else is in place and reads back; a FAILED catalogue is unchanged exactly when closing did not raise after the commit or the plan changes nothing; with no fault it commits exactly a plan whose rows are as expected and otherwise ends in FAILED with every row as it was; whatever failed up to the commit, a handler whose own calls pass leaves no journal open |
| Catalogue.FailedAfterCommit | src/codexsync/app.py:2196-2204 | for every plan that changes something there is a run that ends in FAILED over a changed catalogue |
| Retention.OwnerUnique | src/codexsync/mutation_journal.py:82-88 | a snapshot name belongs to at most one machine, also when one id extends another |
| Retention.BelongsTo | src/codexsync/mutation_journal.py:82-88 | decides membership exactly |
| Retention.BackupManager.OwnSnapshots | src/codexsync/backup.py:151-160 | lists every own unprotected snapshot of the right kind once, newest first |
| Retention.BackupManager.Remove | src/codexsync/backup.py:234-242 | the name is gone unless the removal fails or raises, in which case it may stay with another time; nothing else changes |
| Retention.BackupManager.Prune | src/codexsync/backup.py:108-149 | however it ends only own unprotected snapshots were touched; it is complete exactly when the journals were readable and no call failed, and never leaves more of the names it set out to remove than calls failed; once its second pass has begun, whether or not it reaches the end of it, a newest-first prefix within both limits, of days of 86400 seconds and of number, is left, and none went needlessly, exactly if none of the names its two passes set out to remove is left; stopped before, exactly if nothing past the age limit is left and what is left is not too much |
| Retention.PrunedExactly | src/codexsync/backup.py:130-149 | the exact condition, for any two passes over the folder with removals that fail |
| Retention.StoppedExactly | src/codexsync/backup.py:130-149 | the exact condition for a prune that never began its second pass |
| Retention.OneFailurePushesOut | src/codexsync/backup.py:130-149 | for every machine and every two of its snapshot folders there is a prune in which one failed removal costs the young one and keeps the aged one |
| Retention.PruneIsSteps | src/codexsync/backup.py:130-149 | whatever a prune does to the folder, the protocol below can do step by step |
| Retention.StartIsSound | src/codexsync/backup.py:130-149 | a folder with any content and no journals is a sound start |
| Retention.StepSound | src/codexsync/backup.py:162-170 | beginning, backing up, transitions, removals of any unprotected own name while a prune lasts, power losses and strangers' files keep every needed snapshot |
| Retention.RollbackMaterialSurvives | src/codexsync/app.py:799-852 | over any interleaving of envelopes, recoveries and prunes by any number of machines on one folder, every unfinished journal at or past BACKED_UP still has its snapshot |
| TomlScanner.Scanner.SkipTrivia | src/codexsync/config_edit.py:216-225 | the loop skips blanks, line breaks and comments and stops at the first other character |
| TomlScanner.Scanner.ScanBasicString | src/codexsync/config_edit.py:294-306 | the loop finds the end the grammar gives, or raises where it does |
| TomlScanner.Scanner.ScanMultilineString | src/codexsync/config_edit.py:315-330 | the same for multi-line strings, with up to two quotes of content before the delimiter |
| TomlScanner.Scanner.ScanKey | src/codexsync/config_edit.py:274-292 | the same for dotted and quoted keys |
| TomlScanner.Scanner.ScanValue | src/codexsync/config_edit.py:332-358 | the same for every kind of value, dates with a blank before the time included |
| TomlScanner.Scanner.ScanArray | src/codexsync/config_edit.py:360-377 | the same for nested arrays |
| TomlScanner.Scanner.ScanInlineTable | src/codexsync/config_edit.py:379-396 | the same for inline tables |
| TomlScanner.Scanner.ArrayShape | src/codexsync/config_edit.py:227-260 | the second array walker gives the spans, the closing bracket and the trailing comma the specification gives |
| TomlScanner.Scanner.Statements | src/codexsync/config_edit.py:175-209 | the statement loop ends on every text and gives exactly the statements of the specification |
| TomlScanner.ShapesAgree | src/codexsync/config_edit.py:227-260 | the two array walkers raise alike, end at the same bracket, and the spans of the one are values of the other |
| TomlGrammar.StatementsTile | src/codexsync/config_edit.py:175-209 | statements tile the text exactly, none empty, each value span inside its statement |
| TomlLaws.SkippedIsTrivial | src/codexsync/config_edit.py:216-225 | what is skipped as trivia is blanks, line breaks and comments to the end of their line, and all of them |
| TomlLaws.ShapeIsWhatStandsThere | src/codexsync/config_edit.py:227-260 | the spans of an array are all its elements: outside them, between the brackets, stand trivia, one comma between neighbours and one behind the last exactly if it is recorded; the multi-line flag says whether a line break stands between the brackets |
| TomlLaws.PrintedShape | src/codexsync/config_edit.py:227-260 | a printed list has one span for each element, the k-th reads as the k-th element, and no trailing comma |
| TomlLaws.FlagMeans | src/codexsync/config_edit.py:332-396 | the flag of a value is set exactly if it opens with three quotes or is an array or inline table that holds, at any depth, a value that does |
| TomlLaws.ClosingRun | src/codexsync/config_edit.py:315-330 | a multi-line string ends with the longest run of three to five quotes that begins where three in a row first stand without a backslash before them |
| TomlLaws.BareValueIs | src/codexsync/config_edit.py:350-358 | a bare value takes a blank along exactly between a date and a time, and otherwise ends at the first character that cannot be in one |
| TomlLaws.BasicStringIs | src/codexsync/config_edit.py:294-306 | a string in double quotes ends at the first quote without a backslash before it, and crosses no line break without one |
| TomlLaws.LiteralStringIs | src/codexsync/config_edit.py:308-313 | a string in single quotes ends exactly at the first quote, if the line does not end before |
| TomlLaws.RestOfLine | src/codexsync/config_edit.py:265-272 | behind the value of a key statement stand blanks and then the end of its line, perhaps with a comment |
| TomlLaws.KindIs | src/codexsync/config_edit.py:175-209 | the first character that is no blank, and the one behind a bracket, decide the kind of a statement |
| TomlLaws.HeaderIs | src/codexsync/config_edit.py:184-195 | a header closes with as many brackets as it opened, behind the name it was given and blanks |
| TomlLocality.ValueLocal | src/codexsync/config_edit.py:332-358 | a value whose end a window decides scans the same in any text with that window, wherever it stands |
| TomlLocality.StatementLocal | src/codexsync/config_edit.py:175-209 | a statement that a window contains scans the same in both texts |
| TomlLocality.SuffixLocal | src/codexsync/config_edit.py:175-209 | the rest of a text has the same statements wherever it is put, shifted |
| TomlLocality.PrefixLocal | src/codexsync/config_edit.py:175-209 | the statements before a boundary stay when only text behind it changes |
| TomlLaws.LiteralKeyReads | src/codexsync/config_edit.py:399-410 | a key in single quotes is what stands between them |
| TomlLaws.BlanksAroundPart | src/codexsync/config_edit.py:274-292 | blanks before a part of a key change neither its parts nor its end |
| TomlLaws.UnicodeEscape | src/codexsync/config_edit.py:399-410 | four hexadecimal digits give the character of that number, or nothing for a surrogate |
| TomlRender.RenderStringLoop | src/codexsync/config_edit.py:102-117 | the printing loop computes the specified text |
| TomlRender.StringReads | src/codexsync/config_edit.py:102-117 | decoding a printed string by TOML 1.0.0, section "String", gives the string back, control characters and all |
| TomlRender.RenderedReadsBack | src/codexsync/config_edit.py:76-99 | a printed string, boolean, integer or nested list scans as exactly one value, and a reader that follows the standard decodes it to that value |
| TomlAdd.KeyReads | src/codexsync/config_edit.py:120-121 | a printed key, quoted or bare, decodes to that one key |
| TomlEdit.SetValueIsLocal | src/codexsync/config_edit.py:418-466 | setting an existing key changes no character outside the value span; the result has the same statements, later ones shifted by the difference, the key at the same place, and the new value there |
| TomlAdd.AddedLineScans | src/codexsync/config_edit.py:455-461 | an added key line scans as one statement that spans exactly that line |
| TomlEdit.RemoveKeyIsLocal | src/codexsync/config_edit.py:469-495 | removing a key cuts exactly its statement and leaves all others, later ones shifted by its length; an absent key leaves the text alone |
| TomlAdd.AddedScan | src/codexsync/config_edit.py:873-875 | a line put in behind a statement that ends a line, and that scans as one statement, leaves all others as they were, later ones shifted by its length |
| TomlAdd.EndedScans | src/codexsync/config_edit.py:175-209 | ending the last line of a text changes no statement but the end of the last, whatever statement that is |
| TomlAdd.AddedKeyIsLocal | src/codexsync/config_edit.py:418-466 | setting an absent key of a present section adds one line behind the section's last key or its header, which scans as that key and reads as that value; all other statements stay, later ones shifted, the last line ended if the new one goes behind it; the key is found there |
| TomlAdd.HeaderScans | src/codexsync/config_edit.py:124-125 | a printed header, dotted and quoted names included, scans as the table of exactly those parts |
| TomlAdd.NewSectionScans | src/codexsync/config_edit.py:878-890 | setting a key of an absent section leaves the text, its last line ended, with all its statements, and behind them at most an empty line, the header and the key with its value; the key is found there |
| TomlAdd.SetKeyHolds | src/codexsync/config_edit.py:418-466 | after every successful `set_value` in a section whose name `_split_name` accepts, replacing, adding or appending, the text scans, the key is found in its section, and it reads as the value |
| TomlAdd.RemoveUndoesAdd | src/codexsync/config_edit.py:469-495 | `remove_key` after `set_value` of an absent key in a present section returns the original text; only where the line went behind a last line without a line break, that line stays ended |
| TomlOutcome.RenderedIfInRange | src/codexsync/config_edit.py:76-99 | a value can be printed exactly if every integer in it fits 64 bits |
| TomlOutcome.KeyIndexIs | src/codexsync/config_edit.py:828-843 | a key is found at the first statement that sets it behind the first header of its section, with only keys, comments and blank lines between |
| TomlOutcome.PlaceIs | src/codexsync/config_edit.py:456-461 | a new key goes behind the last key of its section, or its header when it has none |
| TomlOutcome.NewlineMeans | src/codexsync/config_edit.py:861-863 | new lines end as the first line of the text does |
| TomlOutcome.IndentationIs | src/codexsync/config_edit.py:866-870 | the indentation is all the blanks a line begins with |
| TomlOutcome.BlankLineMeans | src/codexsync/config_edit.py:887-889 | decides exactly whether the last line is ended and holds only white space |
| TomlOutcome.SetValueOutcome | src/codexsync/config_edit.py:418-466 | `set_value` fails for exactly four reasons of its own, tried in this order: an empty key, a value out of range, a text that does not scan, a key whose value is or holds a multi-line string; otherwise the final check alone decides about the one text the three cases describe |
| TomlOutcome.RemoveKeyOutcome | src/codexsync/config_edit.py:469-495 | `remove_key` fails for exactly three reasons of its own: an empty key, a text that does not scan, a key the scanner does not see; an absent key leaves the text unchecked, and otherwise the final check alone decides about the text without the key's statement |
| Glob.SegmentRegex | src/codexsync/filters.py:31-54 | the loop appends the expression of every glob character, an unclosed bracket as itself |
| Glob.Compile | src/codexsync/filters.py:58-72 | the compiled expression is the specified one, for names and for paths of segments |
| Glob.NormalisedIs | src/codexsync/filters.py:60 | a pattern means what stands between its outer blanks, character by character, with slashes for backslashes |
| Glob.CompileKeepsMeaning | src/codexsync/filters.py:58-72 | the expression accepts a path exactly when the segment matcher does: an inner `**` takes zero or more segments, a trailing one one or more, `*` and `?` never cross a slash, a slash-free pattern tests the last component |
| Glob.UnsplitSplit | src/codexsync/filters.py:65-66 | joining the segments of a split text gives the text |
| Glob.ExcludedMeansMatched | src/codexsync/filters.py:79-81 | a path is excluded exactly when some non-empty glob matches its segments |
| Migrate.SectionSettles | src/codexsync/config_migrate.py:383-563 | applying a finding's edits to its section removes that finding and changes no other finding of the section |
| Migrate.DetectionSettles | src/codexsync/config_migrate.py:430-477 | after the appends for all four lists no known process is missing from any |
| Migrate.OneFinding | src/codexsync/config_migrate.py:147-156 | applying one finding's edits removes it and leaves every other finding with the same edits |
| Migrate.OneApplicationIsEnough | src/codexsync/config_migrate.py:273-300 | inspecting the rendered document reports exactly the skipped findings and those without an edit, in the same order with the same edits |
| Migrate.NothingFixableRemains | src/codexsync/config_migrate.py:273-300 | with nothing skipped nothing fixable remains |
| Migrate.UnnamedStays | src/codexsync/config_migrate.py:293-300 | keys that no applied edit names keep their values, or their absence |
| Migrate.MigratedPeriod | src/codexsync/config_migrate.py:526-552 | a migrated period ends within the bounds the loader accepts, is the same period when it was within them, cut to whole seconds for fractions of a minute, and the old key is gone |
| Migrate.Appended | src/codexsync/config_edit.py:498-551 | an append keeps every item and leaves exactly the old and the appended items |
| Migrate.AscendingUnique | src/codexsync/config_migrate.py:262 | the order by level and code leaves only one list |
| Migrate.InspectConfig | src/codexsync/config_migrate.py:240-270 | the findings of all generators sorted by level and code, or an error exactly when a list it iterates cannot be iterated or the old period is beyond what a float holds |
| Migrate.RenderMigrated | src/codexsync/config_migrate.py:273-300 | refuses an unknown code and a kept blocker, in that order, and else applies every edit of every finding not skipped or refuses |
| MigrateLaws.FoundExactly | src/codexsync/config_migrate.py:383-563 | for each code, on the keys of the document: it is reported exactly when the flag is true, the backup is false, the mode reads as `last_date_only`, the period is above 0 and below 300 seconds, a known name or marker is in no present list, a glob is missing from a present list, a root that Codex owns and the template does not list is there, an old period or key is there, or a section is absent; and once |
| MigrateLaws.NothingOutdatedIsLeft | src/codexsync/config_migrate.py:273-300 | after applying all findings none of these conditions holds of the document, absent sections apart |
| MigrateLaws.BlockersAreSet | src/codexsync/config_migrate.py:383-427 | where a blocking finding was applied the key holds false, true, `all` and 300 seconds respectively |
| MigrateLaws.ListsGrow | src/codexsync/config_migrate.py:430-500 | the process names and the exclude globs keep every item in place and gain only names this version knows |
| MigrateLaws.RootsLeft | src/codexsync/config_migrate.py:502-522 | of the include roots exactly the obsolete ones go, the others stay in order |
| MigrateLaws.TruncatedIs | src/codexsync/config_migrate.py:535-537 | cutting a number goes towards zero, by less than one |
| MigrateLaws.PeriodIsMigrated | src/codexsync/config_migrate.py:524-550 | an old period becomes its seconds, cut to whole ones and to the bounds the loader accepts, and the old key goes |
| VersionOrders.ParseReads | scripts/linux_packages.py:118-131 | a canonical version splits into its release, its kind and its number |
| VersionOrders.PackageReads | scripts/linux_packages.py:118-131 | what `package_version` makes of every canonical version |
| VersionOrders.PackageVersionKeepsOrder | scripts/linux_packages.py:118-131 | Debian order (section 5.6.12 of Debian Policy) of the package versions is PEP 440 order exactly when the two are not a development release and an alpha or beta of one release |
| VersionOrders.NpmReads | scripts/npm_packages.py:72-84 | `npm_version` takes exactly the canonical versions with three numbers that are no development release |
| VersionOrders.NpmVersionKeepsOrder | scripts/npm_packages.py:72-84 | SemVer 2.0.0 precedence (item 11) of npm versions is PEP 440 order |
| VersionOrders.TagGivesVersionBack | scripts/release_meta.py:50-59 | `version_from_tag` of `v` and the npm version is the version, for every text `npm_version` takes, up to one final line break |
| DesktopEntry.UnescapeString | src/codexsync/desktop_shortcut.py:253-263 | the loop computes the specified decoding |
| DesktopEntry.ValueStep | src/codexsync/desktop_shortcut.py:249-250 | the four sequential replacements work character by character |
| DesktopEntry.StringRoundTrip | src/codexsync/desktop_shortcut.py:249-263 | decoding a printed string gives the string, for every string |
| DesktopEntry.ExecRoundTrip | src/codexsync/desktop_shortcut.py:233-246 | reading a printed `Exec` value by the section "The Exec key" gives exactly that one path, except for a plain path that ends with a line break, which cannot be read |
| DesktopEntry.ExecBreaks | src/codexsync/desktop_shortcut.py:233-246 | the excepted case exists |
| ChatNames.Collect | src/codexsync/chat_names.py:156-159 | all offers, chat by chat and peer by peer |
| ChatNames.Classify | src/codexsync/chat_names.py:162-179 | decides exactly whether a chat is waiting, ambiguous, kept, left, or takes the one offered name |
| ChatNames.BuildNamePlan | src/codexsync/chat_names.py:139-186 | changes exactly the chats whose name is unset here and on whose other name all peers agree, each once and guarded by the name seen; the three counts are those of the kept, ambiguous and waiting chats |
| ChatNameRuns.InitialIsSound | src/codexsync/chat_names.py:139-186 | machines with arbitrary catalogues that have exchanged nothing are a sound start |
| ChatNameRuns.StepSound | src/codexsync/chat_names.py:94-214 | each step of any machine, reading fewer peers than before included, keeps the invariant and every set name |
| ChatNameRuns.SetNamesStay | src/codexsync/chat_names.py:189-214 | in every run of list, name, receive, plan, apply and publish steps by any number of machines, whichever peer files can be read when and however old a plan, a set name is never replaced |
| ChatNameRuns.SecondWriteOverTitle | src/codexsync/chat_names.py:162-179 | in every such run a machine writes a chat a second time only where the name it wrote equals the title the chat has there |
| ChatNameRuns.WrittenTwice | src/codexsync/peer_board.py:6-8 | for every title such a run exists: a peer offers the title, its file becomes unreadable, another peer offers another name |
| ChatNameRuns.PlanKeeps | src/codexsync/chat_names.py:162-179 | while peer files stay readable a new plan names no chat this machine ever wrote |
| ChatNameRuns.ApplyKeeps | src/codexsync/chat_names.py:189-214 | then applying a plan, however old, replaces no set name and keeps all other plans harmless |
| ChatNameRuns.AtMostOnce | src/codexsync/chat_names.py:139-214 | in every run in which no peer file is rolled back or becomes unreadable each machine writes each chat at most once |
| ChatNameRuns.WrittenIsShownElsewhere | src/codexsync/chat_names.py:78-87 | every name a machine wrote is one another machine shows for that chat |
| ChatNameRuns.SyncIsRun | src/codexsync/app.py:1799-1866 | a sync from the present files is a run of the protocol, its write never refused |
| ChatNameRuns.OneRoundConverges | src/codexsync/app.py:1799-1866 | from every reachable state in which all set names of a chat agree, a round of syncs leaves that name with exactly the machines that list the chat and had it, or take part once it is published: before the round, or by a machine that has it set and had its turn earlier; no machine disagrees afterwards |
| ChatNameRuns.OneRoundPublishes | src/codexsync/app.py:1799-1866 | after a round the name is published exactly if it was before or a machine that has it set took part |
| ChatNameRuns.TwoRoundsConverge | src/codexsync/app.py:1799-1866 | from every reachable state in which all set names of a chat agree, two rounds give every machine that lists it that name, if it is published or a machine that has it set takes part in the first |
| ArchivePaths.NormOver | src/codexsync/chat_archive.py:89-93 | a resolved beginning of a path can stand for the text it came from |
| ArchivePaths.OrdinaryBackslash | src/codexsync/chat_archive.py:96-106 | where a backslash is an ordinary character, text that holds one is never rewritten |
| ArchivePaths.StoredLikeResolves | src/codexsync/chat_archive.py:81-106 | a rewritten stored path resolves to the chosen path below the same root and differs only in its tail: same prefix, extended-length or not, and same separator |
| Archive.FoundLeads | src/codexsync/chat_archive.py:109-120 | a candidate is a file, in `sessions/` unless its name climbs out and such a file lies in the state folder |
| Archive.Classify | src/codexsync/chat_archive.py:144-170 | decides exactly whether a row is left, unresolved or followed, and to which file |
| Archive.BuildArchivePlan | src/codexsync/chat_archive.py:123-181 | changes exactly the rows that move, each once, and counts exactly the unresolved ones |
| Archive.PlanGoesThrough | src/codexsync/chat_archive.py:184-214 | a plan applied to the rows it was made for is never refused and sets exactly the planned path, flag and time; names, titles and other rows stay |
| Archive.ChangedRowIsRight | src/codexsync/chat_archive.py:144-170 | a changed row keeps its name and title, names an existing file whose folder agrees with its flag, with the exact exception, and carries that file's time exactly if it is archived |
| Archive.ArchivedChatIsFollowed | src/codexsync/chat_archive.py:152-170 | a chat whose file left `sessions/` and lies in the archive is followed there |
| Archive.ReturnedChatIsFollowed | src/codexsync/chat_archive.py:109-170 | a chat whose file left the archive and lies at one place below `sessions/` is followed there |
| Archive.InPlaceIsUntouched | src/codexsync/chat_archive.py:145-149 | a row whose file is where it says, in any container, is left alone |
| Archive.ReplanIsEmpty | src/codexsync/chat_archive.py:123-181 | after the plan no row moves, and a row is unresolved exactly when it was before |
| Archive.FollowingIsAFixedPoint | src/codexsync/chat_archive.py:123-214 | the plan goes through, and planning again finds no change and the same unresolved rows |
| Archive.ClimbingName | src/codexsync/chat_archive.py:109-116 | a gone archived row whose climbing name lies in the state folder is pointed there and flagged active |
| Archive.ClimbingHappens | src/codexsync/chat_archive.py:109-116 | such a row exists |
| Guardian.ToleratedIs | src/codexsync/guardian_shrink.py:56-62 | the suspicion rule in terms of a product: never to zero, and each decrease below the count or below the share |
| Guardian.PassingMeans | src/codexsync/guardian_shrink.py:13-53 | a report passes against a baseline exactly when policy, report and baseline are sound, the schema is the same known one and both counts are tolerated; and then it is unchanged |
| Guardian.BuiltWhen | src/codexsync/guardian_manifest.py:52-109 | a manifest can be built exactly when counts are there and the generation is one, or past the predecessor's |
| Guardian.StepSound | src/codexsync/guardian_store.py:90-157 | a commit or a rebuilt pointer keeps every manifest tied to its predecessor |
| Guardian.ChainsEnd | src/codexsync/guardian_manifest.py:231-252 | generations fall strictly along predecessors down to a first snapshot, so chains are finite, without repetition and no longer than their generation |
| Guardian.NothingVanishes | src/codexsync/guardian_shrink.py:56-62 | along every chain a positive count stays positive and every decrease is below the minimum count or the ratio |
| Guardian.AutomaticCommitsAreSafe | src/codexsync/guardian_store.py:90-157 | all of this for every state any run of automatic commits reaches |
| GuardianAccept.SchemaChangeIs | src/codexsync/guardian_accept.py:214-234 | holds exactly when the raw report passed with schema and counts, the baseline is verified and passing, and the schemas differ |
| GuardianAccept.SuspiciousIs | src/codexsync/guardian_accept.py:167-173 | a report is suspicious exactly when a count dropped too far, and its shrink codes say which |
| GuardianAccept.AcceptableIs | src/codexsync/guardian_accept.py:132-211 | a plan is acceptable exactly when both payloads and the pointer are at hand and it is a schema change or a drop; never when the state file is missing |
| GuardianAccept.AcceptedBecomesBaseline | src/codexsync/guardian_accept.py:237-261 | what is committed passes with the same counts and schema, and with it as the baseline the same raw report is unchanged |
| GuardianAccept.CountLost | src/codexsync/guardian_accept.py:290-299 | the loop counts the lost bindings by their reason |
| GuardianAccept.ReasonsPartition | src/codexsync/guardian_accept.py:290-308 | every lost binding has exactly one reason |
| GuardianAccept.Explain | src/codexsync/guardian_accept.py:264-315 | replaced and removed projects are those that went; the count now is the count before less these, plus the added ones and those that live on under a new id; the three binding counts add up to the lost bindings, and a dropped one names a project that is still there |
| Delivery.WaitForDelivery | src/codexsync/app.py:3252-3279 | between two checks it sleeps once, for one poll or what is left of the wait if that is less; sleeps total at most the wait, checks number at most the polls that cover it plus one, it returns exactly when the last check found everything, and raises only at or past the deadline with something late |
| Delivery.PollsCover | src/codexsync/app.py:3279 | the bound on the polls is the quotient rounded up |
| Watcher.WatchHandoff | src/codexsync/app.py:3830-3846 | what the loop emits is what the edges of the filtered trace call for |
| Watcher.UnknownsDoNotMatter | src/codexsync/app.py:3840-3841 | taking any set of UNKNOWN samples after the first out of a trace changes no event |
| Watcher.OneUnknownLess | src/codexsync/app.py:3840-3841 | removing one such sample changes no event |
| Watcher.OneStartBetween | src/codexsync/app.py:3842-3845 | between two consecutive closing attempts lies exactly one start and nothing else |
| Watcher.FirstAttempt | src/codexsync/app.py:3830-3836 | the attempt that is not closing is made exactly when the first sample is STOPPED, and first |
| Watcher.ClosingAttemptsAreEdges | src/codexsync/app.py:3844-3845 | there are as many closing attempts as RUNNING-to-STOPPED edges |
| Ancestry.WalkUp | src/codexsync/codex_closer.py:182-187 | the walk ends in every table, cycles included, and finds an app process exactly when one is an ancestor |
| Ancestry.TableIs | src/codexsync/codex_closer.py:173 | with unique pids the table holds exactly the processes, each under its pid |
| Ancestry.TerminalCodex | src/codexsync/codex_closer.py:171-188 | reports, in order, the `codex.exe` processes without an app process among their ancestors |
| Ancestry.LinuxTerminalCodex | src/codexsync/codex_closer.py:282-295 | the same for `codex` processes outside the app's folders |
| Ancestry.OrphansAre | src/codexsync/codex_closer.py:171-188 | a process is reported exactly when it is one in question and no ancestor is of the app |
| Ancestry.LineEndsInRoot | src/codexsync/codex_closer.py:161-168 | where the unbroken line of app ancestors of an app process ends stands one of the root processes |

## Left out

- Outside writers between the last comparison of the state file and the replace that follows it, and while codexSync's bytes are in place: the envelope assumes there are none, as the code can do nothing about them. The catalogue model likewise has no other writer between the commit and the end of its run.
- SQLite, hashing, JSON, `tomllib`, the operating system and the cloud: a database is a map with a working copy, a hash identifies its content, a replace or a journal write happens whole or not at all, the process check and the clock are arbitrary, and a delivered file is an older or the present one or cannot be read; one that is read again may be older than when last read.
- What a backup folder holds: an entry is a name, a kind and a modification time; partial removal of a folder leaves its entry.
- Catalogue backups: copying the database and its side files succeeds or raises; their content is not modelled.
- Operation locks: each machine does one thing at a time.
- Unicode digits in snapshot names, tags and versions, and where the scanner looks for a date and for the time behind it, all of which `\d` accepts; digits are ASCII here, and so is lower case where names and markers are compared.
- Lone surrogates: a character is a Unicode scalar value.
- `tomllib` as the final judge of an edit: whether it accepts a result, and whether it sees a key the scanner does not, are parameters of `TomlEdit.SetValue` and `TomlEdit.RemoveKey`.
- Floats, dates and multi-line strings in the printer; the scanner does skip over them.
- `append_array_items` and `remove_array_items` as edits of text: `Migrate` takes them as the intended change of the document or a refusal.
- Byte-order marks and the encoding of the config file.
- Bracket classes in globs: a negated class can match a slash and an empty one is no regular expression. An unclosed bracket is modelled.
- Paths with empty segments or line breaks in the glob theorem.
- `str` of values that are not strings, case folding, and the order of a table's keys: parameters of `Migrate`, of which it assumes that no such text names a file that Codex owns; rounding of fractional minutes.
- Detail texts, parameters and plan ids of findings and plans.
- Versions with different numbers of release components, epochs and local versions in the order theorems.
- The order of changes and unresolved rows in a plan, and which of several agreeing peers a change names.
- Chats that a person renames or deletes: in the chat-name protocol a person may name a chat that has no name, and nothing else.
- File names that hold glob metacharacters, which `rglob` would interpret.
- Stored paths that are not absolute, links, and Windows' case-insensitive comparison: resolution is lexical and reads every text as absolute.
- Thread ids without a dash: they are UUIDs.
- Snapshot directories, payloads, timestamps and file ids of Guardian manifests; the store's staging and retention.
- Rounding in the shrink ratio and in the clock: both are real numbers.
- What a handoff attempt does, and notifications: the watcher model emits events.
- `cli` daemons, window messages, tray menus and the restart manager of the closer.
- The window, command-line printing, packaging, schedulers, config loading and range checks, `chat_directory`, `chat_move`, `config_locations`, `native_programs`, `fs_links`: input and output, or single-branch facts.
