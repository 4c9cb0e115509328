# SillyTavern Launcher for Termux: a verified model of its core

This project models, in Dafny, the core of a launcher for SillyTavern (a Node.js
chat front-end). The core covers:

- the launcher's JSON settings store with dotted keys (`config.py`) and SillyTavern's
  own YAML settings (`stconfig.py`);
- the Windows environment checks that find Git and Node.js on the `PATH` (`sysenv.py`);
- the comparison of release names and the update check (`version.py`);
- the data-sync service on the phone: the Flask server with its manifest, file, info
  and ZIP endpoints (`sync_server.py`), the client that mirrors a remote data directory
  either incrementally or from a ZIP archive (`sync_client.py`), and the Termux
  front end that picks the LAN address and starts, stops or runs a sync
  (`sync_termux.py`);
- the terminal pane of the desktop UI: ANSI colour parsing, log clean-up, batching,
  trimming and the log file (`ui.py`);
- the desktop event handlers that save the port, pick up the system proxy, start
  SillyTavern and rewrite Git's `gitconfig` for a GitHub mirror (`event.py`);
- the command-line launcher's mirror, install, start, update and menu logic
  (`main_cli.py`).

Files, processes, the network and the clock are parameters: an operation that reads a
file takes what it found, one that runs a command takes the exit code it got, and
operations that write return or record what they wrote. Python's string and integer
built-ins the core relies on (`split`, `strip`, `replace`, `int`, `str`, `re.sub`
with the patterns used) are defined in `strings.dfy`, `numerals.dfy`, `terminal.dfy`
and `version.dfy`. Each is defined to follow the built-in on the inputs the core
gives it; the contracts and lemmas state the properties of them the core relies on
(for `strip`: the result is the input with exactly its surrounding white space
removed), not a complete characterisation.

Modules, one per file: `Wrappers`, `Strings`, `Numerals`, `Config`, `StConfig`,
`Version`, `Terminal`, `SyncPlan`, `Manifest`, `SyncServer`, `SyncClient`, `Termux`,
`SysEnv`, `Event`, `MainCli`.

## Model

| member | source | states |
|---|---|---|
| Strings.Split | src/config.py:82 | `s.split(c)`: never empty; the round trips with `Join` are `JoinOfSplit` and `SplitOfJoin` |
| Strings.JoinOfSplit | src/config.py:82 | splitting at a separator and joining again returns the original string |
| Strings.SplitOfJoin | src/config.py:100 | joining parts free of the separator and splitting again returns the parts |
| Strings.SplitNoSep | src/config.py:82 | a key without a dot is a one-step path |
| Strings.SplitAfterPart | src/config.py:82 | splitting `x + sep + y` with `x` free of `sep` yields `x` followed by the split of `y` |
| Strings.SplitThree | src/sync_server.py:124-125 | three parts free of the separator, joined by it, split back into exactly those parts |
| Strings.ReplaceChar | src/sync_client.py:118-121 | `replace` of one character: same length; each position holds `b` where it held `a`, and is otherwise unchanged |
| Strings.Join | src/sync_server.py:179-180 | `sep.join(parts)`: the parts with one separator between each two; `JoinOfSplit` and `SplitOfJoin` are its round trips with `Split` |
| Strings.PosixJoin | src/sync_termux.py:29-31 | POSIX `os.path.join(a, b)`: an absolute `b` replaces `a`, and otherwise one `/` separates them unless `a` is empty or already ends in `/` |
| Strings.ReplaceAppend | src/sync_client.py:118-121 | `replace` distributes over concatenation |
| Strings.ReplaceAbsent | src/sync_client.py:118-121 | replacing a character that does not occur changes nothing |
| Strings.ReplaceSame | src/sync_server.py:185 | replacing a character by itself changes nothing, which is the corrected normalisation on a POSIX host |
| Strings.NormalisedJoin | src/sync_client.py:118-121 | joining path parts with either host separator and then turning back-slashes into slashes gives the slash-joined path |
| Strings.LStrip | src/sysenv.py:61 | `lstrip()`: the result is a suffix of the input, everything removed is white space, and it starts with no white space |
| Strings.RStrip | src/sysenv.py:61 | `rstrip()`: the result is a prefix of the input, everything removed is white space, and it ends with no white space |
| Strings.Strip | src/ui.py:456 | `strip()`: a slice of the input with no white space at either end; `StripRemovesSpace` and `StripSurrounded` pin it down |
| Strings.StripRemovesSpace | src/ui.py:456 | `strip()` keeps a slice of the input and everything of the input around that slice is white space |
| Strings.StripSurrounded | src/main_cli.py:433 | a text that neither starts nor ends with white space, padded with white space on both sides, strips back to that text |
| Strings.LStripLeading | src/sysenv.py:61 | `lstrip()` of white space followed by a text starting with a non-space is that text |
| Strings.RStripTrailing | src/sysenv.py:61 | `rstrip()` of a text ending with a non-space followed by white space is that text |
| Strings.RStripChar | src/sysenv.py:49 | `rstrip(c)`: a prefix of the input that does not end in `c`, followed in the input only by `c`s |
| Numerals.NatToString | src/main_cli.py:178 | `str(n)` of a natural number: digits only, no leading zero, `"0"` exactly for zero |
| Numerals.PyInt | src/event.py:1144 | `int(s)`: a number is read only from a string with something left after stripping; `None` is the `ValueError`; the values read are pinned down by the lemmas below |
| Numerals.IntToString | src/main_cli.py:178 | `str(n)` of any integer: a minus sign before `NatToString` of the magnitude for a negative; `PyIntOfString` reads it back |
| Numerals.PyIntOfString | src/event.py:1144 | `int(str(n)) == n` for every integer |
| Numerals.PyIntOfNegative | src/event.py:1144-1147 | a minus sign before digits reads as the negated value |
| Numerals.NegativeString | src/event.py:1144 | a minus sign followed by the digits of `-n` reads as the negative number `n` |
| Numerals.StripNoSpace | src/event.py:1144 | `int` strips its argument first, and a text with no white space at either end strips to itself |
| Numerals.PyIntOfDigits | src/version.py:169-171 | a plain digit string reads as its decimal value |
| Config.KeyPath | src/config.py:82 | a dotted key splits into a non-empty path |
| Config.Lookup | src/config.py:71-90 | the walk of `get`: each key descends into an object, and a missing key or a step into a non-object gives the default; `ConfigManager.Get`'s loop computes it, and `GetAfterSet`, `SetFrame` and `ChildLookup` state its interplay with `SetPath` |
| Config.SetPath | src/config.py:92-110 | the walk of `set`: each step into a missing or non-object value replaces it by an empty object, and the last key takes the value; `GetAfterSet`, `SetFrame` and `SetMakesObjects` state what it leaves |
| Config.TwoPartKey | src/config.py:82 | a key with one dot names a path of its two parts |
| Config.DefaultConfig | src/config.py:17-30 | the first-run settings: `github.mirror` is `gh-proxy.com`; `log`, `tray`, `autostart`, `patchgit` and `use_sys_env` are off |
| Config.LoadConfig | src/config.py:34-53 | a parsed file gives its settings; a missing or unreadable file gives the defaults |
| Config.ConfigManager.constructor | src/config.py:34-53 | the manager starts with what loading gives; a missing file is created holding the defaults |
| Config.ConfigManager.Get | src/config.py:71-90 | the value at the dotted key, or the default as soon as a step is missing or not an object |
| Config.ConfigManager.Set | src/config.py:92-110 | the new settings are the old ones with the value written at the path; missing or non-object steps become empty objects |
| Config.ConfigManager.Update | src/config.py:112-120 | the pairs are written in order, each as by `set` |
| Config.ConfigManager.Save | src/config.py:55-69 | the file afterwards holds exactly the current settings |
| Config.GetAfterSet | src/config.py:71-110 | after `set(k, v)`, `get(k)` returns `v` whatever the default |
| Config.SetFrame | src/config.py:92-110 | `set` leaves every key that parts ways with the written one as it was |
| Config.ChildLookup | src/config.py:92-110 | reading below a key in the object `set` walks into agrees with reading below it in the original settings |
| Config.SetMakesObjects | src/config.py:98-108 | after `set`, every strict prefix of the key names an object |
| Config.UpdateGet | src/config.py:112-120 | after `update`, a pair's value reads back unless a later pair writes at, over or below its key; the last write to a key wins |
| StConfig.LoadedListen | src/stconfig.py:20-35 | `listen` is the file's value when the file is readable and has one; otherwise false |
| StConfig.LoadedPort | src/stconfig.py:20-35 | `port` is the file's value when the file is readable and has one; otherwise 8000 |
| StConfig.WriteBack | src/stconfig.py:37-51 | the saved document has the new `listen` and `port` and keeps every other key unchanged |
| StConfig.Saved | src/stconfig.py:37-51 | the state `save_config` leaves: unchanged when the directory cannot be made; otherwise the document gains `listen` and `port`, and the file reads back as that document exactly when the write succeeds |
| StConfig.SaveThenLoad | src/stconfig.py:20-51 | loading a saved document gives back the `listen` and `port` that were saved |
| StConfig.StCfg.constructor | src/stconfig.py:6-35 | the attributes are the three paths plus the loaded `listen` and `port`; the document is the file's or empty |
| StConfig.StCfg.Get | src/stconfig.py:71-73 | the attribute when present, else the default |
| StConfig.StCfg.Set | src/stconfig.py:63-69 | an existing attribute is rebound and mirrored into the document; an unknown one is an error that changes nothing |
| StConfig.StCfg.Assign | src/event.py:1149 | a direct attribute assignment rebinds that attribute only |
| StConfig.StCfg.Save | src/stconfig.py:37-51 | the document and the file become `Saved` of the old ones and the `listen` and `port` attributes: a directory failure changes nothing; otherwise the document gains `listen` and `port`, and the file holds it when the write succeeds |
| StConfig.StCfg.CreateWhitelist | src/stconfig.py:53-61 | an existing whitelist is kept; a missing one gets the two default patterns when the write succeeds |
| Version.RemoveV | src/version.py:106-107 | no `v` is left, the result is no longer than the input, and a string without `v` is unchanged; `RemoveVCounts` and `RemoveVAppend` state that nothing else changes |
| Version.RemoveVCounts | src/version.py:106-107 | the result holds the input's characters with every `v` taken out, each other character as often as in the input |
| Version.RemoveVAppend | src/version.py:106-107 | the removal works piece by piece, `RemoveV(a + b) == RemoveV(a) + RemoveV(b)`, so the other characters keep their order |
| Version.MainLen | src/version.py:111-112 | the greedy match of `\d+(?:\.\d+)*`: a non-empty prefix made of digit groups separated by single dots, and no longer prefix is one (`Longest`) |
| Version.DotStep | src/version.py:111-112 | digits, a dot and the longest match of what follows form the longest match |
| Version.RunStep | src/version.py:111-112 | digits not followed by a dot and a digit are the longest match |
| Version.SplitVersion | src/version.py:111-128 | the suffix is empty or follows a proper main part; the main part is a proper main part or the whole string; the suffix holds no line feed; `SplitRejected` states that a string the pattern rejects is kept whole |
| Version.SplitRejected | src/version.py:111-128 | when no prefix the pattern accepts is followed by white space and a single line, the result is the whole string with no suffix |
| Version.SplitVersionMatches | src/version.py:111-116 | on a match, the main part is the longest prefix the pattern accepts, and the string is the main part, white space, the suffix and possibly a final line feed; the suffix never starts with white space, so the white space is the whole run `\s*` takes |
| Version.CompareNums | src/version.py:133-144 | the component loop: -1, 0 or 1; `TrailingZerosTie` shows missing components count as 0 |
| Version.LexCompare | src/version.py:185-190 | Python's string order: -1, 0 or 1; `LexReflexive` and `LexAntisymmetric` make it an order |
| Version.BetaNumber | src/version.py:159-164 | a beta suffix starts with `测试版` and its number group is digits only; `None` when the suffix is not a beta |
| Version.CompareSuffixes | src/version.py:147-193 | -1, 0 or 1; a version without suffix is newer than one with a suffix, in either argument order |
| Version.CompareVersions | src/version.py:92-193 | -1, 0 or 1; its ordering properties are the lemmas below |
| Version.CheckForUpdates | src/version.py:195-220 | no release found is an error without an update; otherwise an update exactly when the comparison says the remote is newer |
| Version.CompareReflexive | src/version.py:92-193 | every version compares equal to itself |
| Version.CompareAntisymmetric | src/version.py:92-193 | swapping the two versions negates the result |
| Version.TrailingZerosTie | src/version.py:137-144 | trailing zero components do not change the numeric comparison |
| Version.ReleasesByNumbers | src/version.py:131-144 | two releases without suffix compare by their numbers alone: `1.10` beats `1.9`, `1.0` ties with `1.0.0` |
| Version.ReleaseBeatsBeta | src/version.py:150-152 | a release is newer than any beta of the same main version |
| Version.BetasByNumber | src/version.py:168-174 | two numbered betas of the same main version compare by their numbers |
| Version.NumberedBetaBeatsPlain | src/version.py:176-179 | a numbered beta is newer than the unnumbered beta of the same main version |
| Version.SplitOfBeta | src/version.py:111-116 | `main + "测试版" + digits` splits into that main part and that suffix |
| Version.SplitOfClean | src/version.py:111-116 | a main part followed by a suffix that starts with neither a digit, a dot nor white space splits back into the two |
| Version.SplitOfMain | src/version.py:111-116 | a bare main part splits into itself and no suffix |
| Version.BetaNumberOf | src/version.py:159-164 | the beta suffix followed by digits yields those digits |
| Terminal.CodeLen | src/ui.py:22 | a match at the start of a text: escape, `[`, only digits and `;`, then `m`; 0 when none starts there |
| Terminal.Tokenize | src/ui.py:50-51 | `split` and `findall`: one more part than codes |
| Terminal.CodesAreWhole | src/ui.py:50-51 | every code found is one complete escape sequence |
| Terminal.StripAnsi | src/ui.py:547 | `re.sub` of the escape pattern: never longer than the text; `TokenizeStrips` shows it removes exactly the codes |
| Terminal.TokenizeRoundTrip | src/ui.py:50-51 | the parts and codes interleave back into the original text |
| Terminal.TokenizeStrips | src/ui.py:50-51 | the parts, concatenated, are the text with every code removed |
| Terminal.TokenizeWithoutCodes | src/ui.py:50-51 | a text without escape codes is one part |
| Terminal.Colours | src/ui.py:54-69 | the colour of each part is the one in force after the codes before it |
| Terminal.CurrentIsLastMapped | src/ui.py:23-42 | the colour after some codes is that of the last code in the colour table, a reset giving none; unknown codes change nothing |
| Terminal.ParseAnsiText | src/ui.py:44-72 | an empty text gives no span; the spans are those of `AnsiSpans`, whose lemmas follow |
| Terminal.AnsiSpans | src/ui.py:44-72 | the spans of `parse_ansi_text`: one per non-empty part, coloured by the codes before it; `SpansCoverParts`, `SpansNonEmpty` and `SpansShowText` state what they show |
| Terminal.SpansCoverParts | src/ui.py:57-69 | the span texts, concatenated, are the parts concatenated |
| Terminal.SpansNonEmpty | src/ui.py:57-69 | no span is empty |
| Terminal.SpansShowText | src/ui.py:44-72 | the spans show the text with every escape code removed |
| Terminal.FirstPartUncoloured | src/ui.py:57-58 | the text before the first code is shown in the default colour |
| Terminal.PlainTextOneSpan | src/ui.py:375-381 | a text without codes is one uncoloured span, so the plain text the batch shows for it agrees |
| Terminal.BreakRun | src/ui.py:456 | the run of `\r?\n` at the start of a text: as many characters as breaks, at most twice as many |
| Terminal.CollapseBreaks | src/ui.py:456 | `re.sub(r'(\r?\n){3,}', '\n\n', s)`: never longer than the text |
| Terminal.Normalise | src/ui.py:451-456 | `None` exactly for the empty text, which is ignored; otherwise at most 2000 characters |
| Terminal.CollapseLeavesNoTriple | src/ui.py:456 | without carriage returns, the collapsed text never holds three line feeds in a row, and keeps up to two leading ones |
| Terminal.BatchSize | src/ui.py:344-354 | never more than are queued or than 30; at least one when the queue is non-empty; at most 3 off-schedule with a short queue, otherwise the smaller of the queue and 30 |
| Terminal.Trim | src/ui.py:387-390 | always a suffix of the pane; above 1500 controls the newest 750 stay, otherwise nothing is dropped |
| Terminal.RenderEntries | src/ui.py:373-382 | one control per text, in order: rich spans where a code occurs, plain text otherwise |
| Terminal.RenderAll | src/ui.py:373-382 | one control per text |
| Terminal.Render | src/ui.py:373-382 | the control of one text: rich `AnsiSpans` where a code occurs, plain text otherwise; `RenderEntry` and `RenderEntries` compute it |
| Terminal.BatchKeepsNewest | src/ui.py:385-390 | a batch never leaves more than 1500 controls, and the controls it added are the newest kept |
| Terminal.FileMatchesPane | src/ui.py:542-550 | the log file's text for an entry is the text the pane shows for it |
| Terminal.FileLine | src/ui.py:544-550 | one log-file line: `[stamp] `, the text without codes, a line feed; `FileMatchesPane` ties it to the pane |
| Terminal.AsyncTerminal.constructor | src/ui.py:74-120 | the pane and both queues start empty; logging as configured |
| Terminal.AsyncTerminal.UpdateLogSetting | src/ui.py:170-172 | the file log is switched on or off for the texts that follow |
| Terminal.AsyncTerminal.AddLog | src/ui.py:445-525 | an empty text changes nothing; otherwise the cleaned text is queued for the pane and, with logging on, for the file; a text of full length clears the pane's queue, and clears the pane itself only when the terminal has a view |
| Terminal.AsyncTerminal.ProcessBatch | src/ui.py:334-419 | the terminal stays valid; the front of the queue (the batch size) is removed, its controls appended and the pane trimmed |
| Terminal.AsyncTerminal.WriteLogEntries | src/ui.py:526-559 | with logging on, one line per entry, its timestamp and its text without escape codes; nothing otherwise |
| SyncPlan.Paths | src/sync_client.py:224-227 | the paths of the remote manifest, in order |
| SyncPlan.Index | src/sync_client.py:204 | the lookup table of the local manifest, a later entry replacing an earlier one; `IndexShape` states its keys and values |
| SyncPlan.DownloadPlan | src/sync_client.py:206-221 | the remote entries to fetch, in remote order; `DownloadPlanMembers` states exactly which |
| SyncPlan.DeletePlan | src/sync_client.py:224-227 | the local keys the remote manifest does not name, in order; `DeletePlanMembers` states exactly which |
| SyncPlan.IndexLocal | src/sync_client.py:204 | the lookup table of the local manifest and its keys in insertion order |
| SyncPlan.IndexShape | src/sync_client.py:204 | the table's keys are the local paths, each once, and each maps to the last entry carrying it |
| SyncPlan.SelectDownloads | src/sync_client.py:206-221 | the remote entries missing locally or newer than the local copy, in order, with the sum of their sizes |
| SyncPlan.SelectDeletes | src/sync_client.py:224-227 | the local paths the remote manifest does not name, in order |
| SyncPlan.Plan | src/sync_client.py:204-227 | the diff: the download list with its byte total, and the delete list |
| SyncPlan.DownloadPlanMembers | src/sync_client.py:206-221 | a remote entry is planned for download exactly when it is missing locally or newer |
| SyncPlan.DeletePlanMembers | src/sync_client.py:224-227 | a local path is planned for deletion exactly when the remote manifest lacks it |
| SyncPlan.PlanEmptyIff | src/sync_client.py:229-231 | nothing is planned exactly when every remote file is present and not newer, and every local file is named remotely |
| Manifest.ChooseWalk | src/sync_server.py:166-195 | the walk lists every file of the tree once, in some order |
| Manifest.Listed | src/sync_server.py:170-177 | a file the walk reports: no hidden name on its path, and a last name not ending in `.tmp` |
| Manifest.RelPathAsWritten | src/sync_server.py:179-185 | the manifest path as written: the path joined with the host separator, then every back-slash turned into a slash |
| Manifest.RelPath | src/sync_server.py:179-185 | the corrected manifest path: only the host separator turned into a slash; `RelPathRoundTrip` splits it back |
| Manifest.GeneratedAsWritten | src/sync_server.py:166-195 | the source's manifest: one `RelPathAsWritten` entry per listed, readable file of the walk, in walk order; `GeneratedAsWrittenSound` and `GeneratedAsWrittenComplete` state exactly which, `GeneratedAgrees` and `AsWrittenSlashes` relate it to `Generated` |
| Manifest.Generated | src/sync_server.py:166-195 | the corrected manifest, with `RelPath` entries; `ManifestExact` and `ManifestPathsDistinct` describe it |
| Manifest.GeneratedAsWrittenSound | src/sync_server.py:166-195 | every entry of the source's manifest is a listed, readable file of the walk with its size and mtime |
| Manifest.GeneratedAsWrittenComplete | src/sync_server.py:166-195 | every listed, readable file of the walk has its entry in the source's manifest |
| Manifest.GenerateManifest | src/sync_server.py:166-195 | for any walk whose paths are in the tree, the loop computes the source's manifest `GeneratedAsWritten` of the walk, every back-slash of a relative path turned into a slash; `AsWrittenSlashes` and `GeneratedAgrees` tie it to the corrected `Generated` the lemmas below describe |
| Manifest.CalculateTotalSize | src/sync_server.py:223-233 | the sum of the sizes of every readable file of the walk, hidden and temporary ones included |
| Manifest.GeneratedSound | src/sync_server.py:166-195 | of the corrected builder `Generated`: every entry comes from a listed, readable file of the walk |
| Manifest.GeneratedComplete | src/sync_server.py:166-195 | of the corrected builder `Generated`: every listed, readable file of the walk has its entry |
| Manifest.RelPathRoundTrip | src/sync_client.py:118-121 | with only the host separator normalised, the manifest path of a valid path is the slash-joined path, and splitting it at `/` gives the file's path back, on Windows and on POSIX hosts (where names may hold a back-slash) |
| Manifest.BackslashNamesCollide | src/sync_server.py:185 | as written, on a POSIX host the file `a\b` and the file `b` in directory `a` both get the manifest path `a/b` |
| Manifest.AsWrittenAgrees | src/sync_server.py:185 | the as-written and the corrected normalisation agree on every Windows path and on every POSIX path without a back-slash in a name |
| Manifest.ManifestExact | src/sync_server.py:166-195 | of the corrected builder `Generated` over a well-formed tree: it holds exactly the listed readable files, each found again by splitting its path at `/`; no entry is a directory, and none from a Windows host holds a back-slash |
| Manifest.RelPathsDiffer | src/sync_server.py:186-188 | distinct valid paths have distinct (corrected) manifest paths, POSIX names with back-slashes included |
| Manifest.ManifestPathsDistinct | src/sync_server.py:166-195 | of the corrected builder `Generated` over a well-formed tree: no two entries share a path |
| Manifest.ManifestTotalAtMostSize | src/sync_server.py:152-164 | the byte total of the manifest, as built and as corrected, never exceeds the unfiltered total `/info` reports |
| Manifest.AsWrittenOfCorrected | src/sync_server.py:185 | the source's manifest path is the corrected one with every remaining back-slash turned into a slash |
| Manifest.AsWrittenSlashes | src/sync_server.py:166-195 | the source's manifest lists the same files as the corrected one, in the same order, with the same sizes and times; only back-slashes in paths differ |
| Manifest.GeneratedAgrees | src/sync_server.py:166-195 | on Windows, and on POSIX trees without a back-slash in a name, the source's manifest is the corrected one |
| Manifest.AsWrittenManifestCollides | src/sync_server.py:166-195 | on a POSIX host, the well-formed tree holding `a\b` and `a/b` gets a manifest from the source in which two entries share the path `a/b` |
| SyncServer.SanitisedHasNoDotDot | src/sync_server.py:124 | after the `..` removal no `..` is left in the path |
| SyncServer.RemoveDotDot | src/sync_server.py:124 | Python's `replace('..', '')`: non-overlapping pairs of dots dropped left to right; `SanitisedHasNoDotDot` states none is left |
| SyncServer.Resolve | src/sync_server.py:124-125 | where `os.path.join(data_path, p)` lands: from the host root for a `p` starting with `/`, inside the data directory otherwise |
| SyncServer.Confined | src/sync_server.py:113-149 | the corrected sanitiser: the parameter's names without empty, `.` and `..` ones; `SafeSegments` states it |
| SyncServer.ZipOf | src/sync_server.py:197-221 | one member per listed, readable file, named by its relative path with the host separator turned into `/` as `zipfile` stores it; `ZipMatchesManifest` and `ZipMatchesAsWritten` relate it to the manifests |
| SyncServer.Segments | src/sync_server.py:125 | the names a joined path walks through: no empty and no `.` name remains |
| SyncServer.Serve | src/sync_server.py:127-143 | 404 when nothing is there, 400 for a directory, the file otherwise |
| SyncServer.GetFileAsWritten | src/sync_server.py:113-149 | a missing or empty parameter is 400; otherwise the `..`-free path is joined to the data directory, where a leading `/` wins |
| SyncServer.AbsoluteParamEscapes | src/sync_server.py:124-125 | a parameter with a leading `/` survives sanitising and is resolved from the file-system root |
| SyncServer.TraversalServesHostFile | src/sync_server.py:124-125 | `?path=/etc/passwd` is answered with the host's `/etc/passwd` |
| SyncServer.DotDotNameNotServed | src/sync_server.py:124 | a file named `a..b`, which the manifest lists, is answered with 404 |
| SyncServer.SafeSegments | src/sync_server.py:124 | the confined sanitiser keeps only real names: no empty, `.` or `..` name remains |
| SyncServer.GetFile | src/sync_server.py:113-149 | a missing or empty parameter is 400; anything sent is a file inside the data directory, with its own size and time |
| SyncServer.SafeSegmentsKeepsValid | src/sync_server.py:124 | valid names pass the confined sanitiser unchanged |
| SyncServer.ManifestPathServed | src/sync_server.py:79-149 | every path the manifest of a well-formed tree publishes is answered with that file |
| SyncServer.ZipMatchesManifest | src/sync_server.py:197-221 | the archive holds exactly the corrected manifest's files, in the same order and with the same sizes |
| SyncServer.ZipMatchesAsWritten | src/sync_server.py:197-221 | against the source's manifest, each archive member matches its entry's size, and its path once the member's back-slashes are turned into slashes |
| SyncServer.SyncServer.constructor | src/sync_server.py:20-44 | a server over an existing data directory, not running |
| SyncServer.SyncServer.Create | src/sync_server.py:36-38 | a missing data directory raises (no server); otherwise a server over it, not running |
| SyncServer.SyncServer.GetManifest | src/sync_server.py:79-93 | the source's manifest (`GeneratedAsWritten`) and its length, or a 500 when building it raised |
| SyncServer.SyncServer.GetInfo | src/sync_server.py:152-164 | the file count is the length of the source's manifest, and the total size is never below that manifest's byte total |
| SyncServer.SyncServer.CreateZip | src/sync_server.py:197-221 | the loop computes the archive's members for the walk; `ZipMatchesManifest` and `ZipMatchesAsWritten` tie them to the two manifests |
| SyncServer.SyncServer.Start | src/sync_server.py:235-258 | a running server is left alone; otherwise the application is launched once and the server is running |
| SyncServer.SyncServer.Stop | src/sync_server.py:260-264 | the server is marked stopped; launches are not undone |
| SyncClient.SyncClient.constructor | src/sync_client.py:21-40 | a client over the given data directory with no backup recorded |
| SyncClient.SyncClient.LocalManifest | src/sync_client.py:107-136 | the source's manifest (`GeneratedAsWritten`) of the local directory in some walk order |
| SyncClient.SyncClient.DownloadFile | src/sync_client.py:305-326 | true exactly when nothing failed, and then the file holds the remote size and modification time; a failure before the file is opened changes nothing; a failure after it leaves the bytes written so far with the time of the write |
| SyncClient.SyncClient.RemoveFiles | src/sync_client.py:237-243 | each planned path whose removal succeeds is gone; a failed removal is skipped |
| SyncClient.SyncClient.DownloadFiles | src/sync_client.py:247-255 | each planned file is downloaded in order, as `DownloadFile` leaves it |
| SyncClient.SyncClient.SyncIncremental | src/sync_client.py:184-262 | without a non-empty remote manifest nothing changes and the result is false; otherwise the directory is the plan against the source's manifest of a walk of it, deletions then downloads, carried out |
| SyncClient.SyncClient.BackupExistingData | src/sync_client.py:328-346 | a successful backup of a non-empty directory stores a copy under the stamp and records it; otherwise nothing changes |
| SyncClient.SyncClient.RestoreBackup | src/sync_client.py:348-373 | false without a recorded backup that still exists; otherwise the directory becomes the backup |
| SyncClient.SyncClient.ExtractArchive | src/sync_client.py:375-392 | the archive's members are written in order until one fails |
| SyncClient.SyncClient.SyncFullZip | src/sync_client.py:138-182 | the directory, backups and recorded backup become `ZipEffect`'s: a failed backup aborts before any download; a failed download or extraction restores the backup when one was asked for |
| SyncClient.SyncClient.Sync | src/sync_client.py:264-303 | nothing happens when the health check fails; otherwise the preferred strategy, then the other exactly once if the first fails; the directory, backups and recorded backup are those the attempts leave (`SyncEffect`: `ZipEffect`, then the incremental plan carried out) |
| SyncClient.KeyInjective | src/sync_client.py:118-121 | two manifest paths naming the same file are the same path |
| SyncClient.Executed | src/sync_client.py:204-258 | the directory after the plan: the deletions, then the downloads; `DeletesRemoveExactly`, `DownloadLands`, `DownloadsElsewhere`, `RemoteFilesPresent` and `StaleFilesGone` state what it holds |
| SyncClient.ZipEffect | src/sync_client.py:138-182 | the directory, backups and recorded backup after one bundle attempt: unchanged after a failed backup, the extraction after success, and the restore or the partial extraction after a failure |
| SyncClient.DeletesRemoveExactly | src/sync_client.py:237-243 | the deletions remove exactly the files whose removal succeeds and leave every other file alone |
| SyncClient.DownloadLands | src/sync_client.py:247-255 | a file whose request succeeds ends with the remote size and modification time |
| SyncClient.DownloadsElsewhere | src/sync_client.py:247-255 | a file no successful download writes is left as it was |
| SyncClient.GeneratedReflects | src/sync_client.py:107-136 | a generated local manifest reports the directory's modification times: the corrected one always, the source's on Windows and on POSIX trees without back-slashes in names |
| SyncClient.BrokenDownloadKept | src/sync_client.py:305-326 | a download that fails after the file was opened leaves the partial file with the time of the write, and a later plan against the same remote entry never fetches it again |
| SyncClient.RemoteFilesPresent | src/sync_client.py:184-262 | after an incremental sync with no failed request, every remote file is present and at least as new as the remote copy |
| SyncClient.StaleFilesGone | src/sync_client.py:224-243 | after an incremental sync with no failed removal, no local file the remote manifest lacks is left |
| SyncClient.DownloadPlanOrder | src/sync_client.py:206-221 | the download plan keeps the remote manifest's order, so its paths are distinct |
| SyncClient.NothingLeftToDownload | src/sync_client.py:206-221 | a second plan against a local manifest that reports the synced directory and names every remote path schedules no download; `NothingLeftToDelete` is the deletion half |
| SyncClient.NothingLeftToDelete | src/sync_client.py:204-258 | after an incremental sync with no failed removal, a second plan against the same remote manifest deletes nothing, for the source's manifest of the new directory on Windows and on POSIX directories without back-slashes in names |
| SyncClient.ExtractKeepsFiles | src/sync_client.py:375-392 | extraction keeps every file already present and adds the archive's files |
| SyncClient.StaleFileSurvivesZip | src/sync_client.py:138-182 | a successful bundle sync over a directory holding `old` with an archive of only `new` keeps `old`, and the next incremental plan against the server's manifest deletes it |
| Termux.Candidates | src/sync_termux.py:55-62 | the filtered addresses, in order, no more than were found; `CandidatesMembers` says which |
| Termux.DataDir | src/sync_termux.py:28-31 | `~/SillytavernLauncher/SillyTavern/data/default-user` under the expanded home |
| Termux.CandidatesMembers | src/sync_termux.py:55-62 | an address is kept exactly when it is not one of the discarded kinds |
| Termux.FirstPreferred | src/sync_termux.py:64-67 | the position of the first `192.168.` or `10.` address, which no earlier address matches |
| Termux.Choice | src/sync_termux.py:64-71 | the first preferred address, else the first candidate, else nothing |
| Termux.LocalIp | src/sync_termux.py:39-96 | `127.0.0.1` or an address that is never a discarded kind; one of the `ipconfig` candidates whenever there is one |
| Termux.PreferredWins | src/sync_termux.py:64-67 | a preferred address found by `ipconfig` wins: the first of them |
| Termux.ProbeFallback | src/sync_termux.py:76-96 | with nothing usable from `ipconfig`, the probe is used exactly when it passes its checks |
| Termux.NormaliseServerUrl | src/sync_termux.py:262-265 | `ip:port` without a scheme gains `http://`; anything else is kept |
| Termux.FirstIndexOf | src/sync_termux.py:264 | the position of the first occurrence of the character |
| Termux.PreferZip | src/sync_termux.py:156 | ZIP first exactly for the methods `auto` and `zip` |
| Termux.SyncSettingsRead | src/sync_termux.py:117-119 | after a start, the sync settings read back as enabled, with the port and host used |
| Termux.ThreeWrites | src/sync_termux.py:117-119 | three writes to keys that part ways pairwise each read back |
| Termux.LanIps | src/sync_termux.py:55-62 | the filtering loop computes the candidates |
| Termux.PickLan | src/sync_termux.py:64-71 | the preference loop computes the choice |
| Termux.GetLocalIp | src/sync_termux.py:39-96 | the address announced is the one `LocalIp` defines |
| Termux.TermuxSyncManager.constructor | src/sync_termux.py:22-31 | the settings as loaded, and the data directory under the launcher's home |
| Termux.TermuxSyncManager.StartSyncServer | src/sync_termux.py:99-142 | without the data directory nothing changes and the result is false; otherwise the settings are recorded and saved and the server runs |
| Termux.TermuxSyncManager.StopSyncServer | src/sync_termux.py:144-148 | `sync.enabled` is recorded as false and saved |
| Termux.TermuxSyncManager.SyncFromCustomServer | src/sync_termux.py:150-160 | a new client over the data directory (empty when missing) and the backups on disk runs one sync, ZIP first for `auto` and `zip`; the client's directory, backups and recorded backup afterwards are `SyncEffect`'s |
| SysEnv.DriveLength | src/sysenv.py:18-19 | the drive `splitdrive` takes off, never longer than the path |
| SysEnv.SplitPath | src/sysenv.py:18-22 | `ntpath.split`: the head with its drive and without trailing separators, and the tail after the last separator; `LeafOf` states it for `dir\leaf` |
| SysEnv.Dirname | src/sysenv.py:18-22 | the head of `SplitPath` |
| SysEnv.Basename | src/sysenv.py:18-22 | the tail of `SplitPath` |
| SysEnv.JoinPath | src/sysenv.py:47 | `ntpath.join(a, b)` for a relative `b`: a back-slash between them unless `a` is a bare drive or ends in a separator |
| SysEnv.AfterLastSep | src/sysenv.py:18-19 | the index just past the last separator, which no later separator follows |
| SysEnv.RStripSeps | src/sysenv.py:18-19 | trailing separators removed, a prefix of the input |
| SysEnv.Stored | src/sysenv.py:49 | a stored entry ends in exactly one backslash, after the entry with its trailing backslashes stripped |
| SysEnv.StoredEntry | src/sysenv.py:49 | an entry with any number of trailing backslashes is stored as the entry plus one |
| SysEnv.GitRoot | src/sysenv.py:14-26 | no path gives no root, and a root comes only from a path; `RootOfToolDir` and `RootOfOtherDir` give its value in every case |
| SysEnv.RootOfToolDir | src/sysenv.py:14-22 | Git found in `dir\cmd` or `dir\bin` has its root at `dir` |
| SysEnv.RootOfOtherDir | src/sysenv.py:14-26 | Git found in a directory named other than `cmd` or `bin` has the stored directory itself as its root |
| SysEnv.LeafOf | src/sysenv.py:18 | `dir\leaf` splits into `dir` and `leaf` |
| SysEnv.AfterLastSepAt | src/sysenv.py:18-19 | the last separator determines the split point |
| SysEnv.RStripSepsAt | src/sysenv.py:18-19 | the last non-separator determines what is stripped |
| SysEnv.FirstFound | src/sysenv.py:46-50 | the first `PATH` entry that holds the executable; none before it does |
| SysEnv.FirstFoundAt | src/sysenv.py:46-50 | an entry holding the executable with none before it is the one found |
| SysEnv.GitCheck | src/sysenv.py:38-53 | success exactly when `git --version` succeeded and some `PATH` entry holds `git.exe` |
| SysEnv.LStripChar | src/sysenv.py:61 | `lstrip(c)`: a suffix of the input, everything removed is `c`, and it does not start with `c` |
| SysEnv.NodeCheck | src/sysenv.py:55-73 | success exactly when `node --version` succeeded, the version is at least 18.0.0 and some entry holds `node.exe`; the too-old message quotes the version |
| SysEnv.Decide | src/sysenv.py:28-36 | ready only when both checks pass; a missing Git is reported before a missing Node.js |
| SysEnv.Env.constructor | src/sysenv.py:7-12 | nothing found yet and no Git root |
| SysEnv.Env.Search | src/sysenv.py:46-50 | the loop finds the first entry that holds the executable |
| SysEnv.Env.CheckSystemGit | src/sysenv.py:38-53 | the result is `GitCheck`'s; on success the stored entry is remembered |
| SysEnv.Env.CheckSystemNode | src/sysenv.py:55-73 | the result is `NodeCheck`'s; on success the stored entry is remembered |
| SysEnv.Env.CheckSysEnv | src/sysenv.py:28-36 | both checks run, Git first, and the verdict is `Decide`'s; each tool that passes has its first `PATH` entry recorded, stored, and a failing one leaves its record as it was |
| SysEnv.Env.GitRootDir | src/sysenv.py:14-26 | no Git path found gives no root |
| SysEnv.Env.CheckST | src/sysenv.py:80-90 | true exactly when the directory exists and holds `package.json` and `server.js` as files |
| SysEnv.Env.CheckNodeModules | src/sysenv.py:91-94 | true exactly when `node_modules` exists |
| Event.ReadPort | src/event.py:1141-1153 | a text is accepted exactly when `int` reads it as a number from 1 to 65535; out of range and not-a-number are told apart |
| Event.ReadPortOfString | src/event.py:1141-1153 | every valid port, written out, is accepted as itself |
| Event.ProxyChoice | src/event.py:356-365 | the `http` proxy, else `https`, else `socks`, else `socks5`, else the empty string |
| Event.ProxyAttrs | src/event.py:367-379 | a proxy found is enabled and recorded; none found disables the proxy at start and otherwise changes nothing |
| Event.PathCheck | src/event.py:337-346 | a CJK character in the path is refused first, then a space; other paths pass |
| Event.Command | src/event.py:395-400 | the quoted node binary and `server.js`, followed by a space and the custom arguments when there are any |
| Event.LaunchAsWritten | src/event.py:402-424 | as written, every launch is reported started and keeps the running flag |
| Event.Launch | src/event.py:402-424 | a successful spawn keeps the flag set; a failed one is reported and clears it |
| Event.StartGate | src/event.py:383-428 | already running, not installed and modules missing are refused in that order; otherwise the launch |
| Event.FailedSpawnBlocksRestart | src/event.py:383-424 | as written, after a failed spawn every later start is refused as already running |
| Event.FailedSpawnAllowsRetry | src/event.py:383-424 | as intended, a failed spawn does not block the next start |
| Event.Kept | src/event.py:1114-1124 | the sections without a GitHub redirect, in order |
| Event.WithRedirect | src/event.py:1127-1132 | the named section, added when missing, with `insteadof` set to GitHub's address; `WithRedirectNames` states that names stay distinct |
| Event.Rewritten | src/event.py:1114-1132 | the file `update_mirror_setting` writes: the GitHub redirects removed and, for a mirror, its section redirecting; `RewriteRedirects` and `RewriteKeepsOthers` state it |
| Event.IndexOfName | src/event.py:1130 | the position of the section with that name, or none when no section has it |
| Event.KeptMembers | src/event.py:1114-1124 | the removal keeps exactly the sections that do not redirect GitHub |
| Event.KeptNames | src/event.py:1114-1124 | the removal keeps section names distinct |
| Event.RewriteRedirects | src/event.py:1114-1132 | afterwards only the mirror's section redirects GitHub (none for `github`), the mirror's section does, and names stay distinct |
| Event.RewriteKeepsOthers | src/event.py:1114-1132 | a section that neither redirects GitHub nor is the mirror's survives unchanged |
| Event.GitConfig.constructor | src/event.py:1110-1112 | the parser holds the file's sections |
| Event.GitConfig.RemoveGithubRedirects | src/event.py:1114-1124 | the sections become `Kept` of the old ones |
| Event.GitConfig.PointAtMirror | src/event.py:1127-1132 | the mirror's section, added when missing, redirects GitHub; nothing else changes |
| Event.UiEvent.constructor | src/event.py:15-34 | the settings as loaded; nothing running and no tray |
| Event.UiEvent.SavePort | src/event.py:1141-1153 | an accepted port becomes `port`, and the document and file become `Saved` with that port; anything else changes nothing; the whitelist is never touched |
| Event.UiEvent.ApplyProxy | src/event.py:349-381 | a failed proxy read changes nothing; otherwise the attributes become `ProxyAttrs`, and the YAML is saved (`Saved`, with `listen` and `port` only, never the proxy) exactly when a proxy is set or cleared; the whitelist is never touched |
| Event.UiEvent.AutoProxy | src/event.py:349-381 | with `auto_proxy` set and a proxy read, the attributes become `ProxyAttrs` and the YAML is saved as by `Saved`; otherwise attributes, document and file are unchanged; the whitelist is never touched |
| Event.UiEvent.StartSillyTavern | src/event.py:333-428 | the start as written (`LaunchAsWritten`; see Findings): the outcome is the path check's refusal (changing nothing) or the gate's decision, and past the gate the launch is reported started and the running flag is set even when the spawn fails, so `FailedSpawnBlocksRestart` describes the next start; past the path check the attributes, document and file are as `AutoProxy` leaves them; the whitelist is never touched |
| Event.UiEvent.UpdateMirrorSetting | src/event.py:1095-1139 | as written: the mirror is recorded and saved; with `use_sys_env` and `patchgit` set the handler raises at `self.env.git_dir`; `gitconfig` is rewritten exactly when `PatchesAsWritten` holds, the file parses and the write succeeds |
| Event.UiEvent.TrayChanged | src/event.py:1192-1217 | the setting is saved; a tray is created only when enabling with none, removed only when disabling with one |
| Event.UiEvent.AutostartChanged | src/event.py:1219-1226 | `autostart` and `tray` both take the new value, and the settings are saved |
| Event.AutostartSetsBoth | src/event.py:1219-1226 | afterwards both switches read back as the chosen value |
| Event.MirrorGateSimplified | src/event.py:1103 | the gate `(use_sys_env and patchgit) or not use_sys_env` is `not use_sys_env or patchgit` |
| Event.PatchesAsWritten | src/event.py:1103-1106 | as written, the rewrite happens only without `use_sys_env`, past the gate and with Git's directory present; `PatchgitIgnored` states it |
| Event.PatchesIntended | src/event.py:1103-1106 | as intended, the gate and Git's directory decide; `PatchgitHonoured` states it |
| Event.PatchgitIgnored | src/event.py:1103-1106 | as written, `gitconfig` is patched exactly when the system environment is off and Git's directory exists, so `patchgit` never matters |
| Event.PatchgitHonoured | src/event.py:1103-1106 | as intended, with Git's directory present the file is patched without the system environment, or with it when `patchgit` is set |
| Event.WithRedirectNames | src/event.py:1127-1132 | adding the mirror's redirect keeps section names distinct |
| Event.Unreserved | src/stconfig.py:63-69 | a setting name starting with a letter and naming none of the object's members is a plain attribute |
| MainCli.MirrorUrl | src/main_cli.py:47-54 | GitHub itself for `github`; otherwise the mirror's host in front of GitHub's address |
| MainCli.ConfiguredMirrorUrl | src/main_cli.py:47-54 | a string setting gives its URL; other values are not rendered |
| MainCli.MirrorUrlShape | src/main_cli.py:47-54 | every URL ends with GitHub's address and starts with GitHub or the mirror |
| MainCli.MirrorUrlInjective | src/main_cli.py:47-54 | different mirror names give different URLs |
| MainCli.CloneCommand | src/main_cli.py:112-119 | `git clone <url>/SillyTavern/SillyTavern.git SillyTavern` |
| MainCli.NpmInstall | src/main_cli.py:130-143 | the mirror registry is passed exactly when the setting is not `github` |
| MainCli.Render | src/main_cli.py:178 | Python's `str` where modelled: an integer as its digits, a string as itself, nothing for lists and objects |
| MainCli.StartCommand | src/main_cli.py:173-182 | `node server.js`, then `--port` and the rendered port when truthy, then `--listen` when truthy |
| MainCli.PortArgumentRoundTrip | src/main_cli.py:176-178 | an integer port passed on the command line reads back through `int` as that port |
| MainCli.ReadMenuChoice | src/main_cli.py:435-450 | `1` to `7` choose their mirror, `0` goes back, anything else is invalid |
| MainCli.MenuMirrorsDistinct | src/main_cli.py:435-443 | the seven entries are distinct and only the first is GitHub |
| MainCli.ComponentOf | src/main_cli.py:276-283 | only `st` and `stl` name a component |
| MainCli.CommandSucceeded | src/main_cli.py:56-87 | success exactly when the command ran and exited with 0 |
| MainCli.InstallSteps | src/main_cli.py:89-153 | the commands run, in order, and where installing stops: missing tools, a declined reinstall, a failed clone or failed dependencies |
| MainCli.CliLauncher.constructor | src/main_cli.py:10-18 | the launcher's settings and SillyTavern settings are the loaded ones |
| MainCli.CliLauncher.Mirror | src/main_cli.py:49 | the `github.mirror` setting, `github` when unset |
| MainCli.CliLauncher.GithubMirror | src/main_cli.py:47-54 | the URL of the configured mirror |
| MainCli.CliLauncher.Install | src/main_cli.py:89-153 | the steps and outcome are `InstallSteps` for the configured mirror |
| MainCli.CliLauncher.Start | src/main_cli.py:173-182 | the arguments are `StartCommand` of the current `port` and `listen` |
| MainCli.CliLauncher.Update | src/main_cli.py:227-267 | no directory runs nothing; otherwise `git pull`, and after a successful pull the same `npm install` as installing |
| MainCli.CliLauncher.SetGithubMirror | src/main_cli.py:269-274 | the mirror is written to `github.mirror` and saved |
| MainCli.CliLauncher.MirrorMenu | src/main_cli.py:421-450 | the line is stripped before it is read; a numbered choice sets its mirror and saves; anything else changes nothing |
| MainCli.MenuThenMirrorUrl | src/main_cli.py:421-450 | after a menu line that strips to a choice, `get_github_mirror` gives that mirror's URL |
| MainCli.PaddedChoice | src/main_cli.py:433 | a choice typed with white space around it reads as the choice itself |
| MainCli.DefaultMirror | src/config.py:17-30 | with the default settings the clone goes through `gh-proxy.com` and `npm` uses the mirror registry |
| MainCli.DefaultMirrorEntry | src/config.py:17-30 | the default settings hold `gh-proxy.com` at `github.mirror` |

## Left out

- Files, processes, sockets, HTTP and the clock are parameters or outcomes chosen by the caller. Flask routing, `send_file` and the JSON bodies are not modelled; a response is its status and its file.
- Threads, timers, `asyncio` tasks, UI updates and the queues' locking are not modelled. `ProcessBatch` and `AddLog` run one at a time.
- `_get_local_ip` takes the list of addresses `ipconfig` prints; the regular expression that finds them in the output is not modelled. The probe's `int(p)` on each octet is taken as a parameter check.
- SysEnv models the Windows paths the class is written for (`ntpath`). UNC drives and forward-slash `PATH` entries are not modelled. A missing `PATH` variable (the `KeyError`) is not modelled.
- SysEnv.NodeCheck: `packaging.version` ordering is a parameter (`tooOld`), not a model of version parsing.
- Numerals.PyInt: only ASCII digits are read; Python's `int` also accepts other Unicode decimal digits.
- Version.SplitVersion: `\d` is taken as an ASCII digit; Python's `re` on `str` also accepts other Unicode decimal digits, so a release name such as fullwidth `１.２` is not modelled.
- SyncClient.SyncClient.DownloadFile: the remote manifest is trusted; a path that is absolute or climbs with `..` makes `os.path.join` write outside the data directory, which the model (a directory keyed by the path's names) does not capture.
- StConfig.StCfg.Save: a write that fails after `open(..., 'w')` has emptied the file is modelled as leaving the file unchanged.
- StConfig.StCfg.CreateWhitelist: a write that fails after `open(..., 'w')` created the file is modelled as leaving no whitelist.
- Manifest.GeneratedSound: stated of the corrected builder `Generated`, not of the source's manifest (`GeneratedAsWritten`), which the operations compute; `GeneratedAgrees` carries it over on Windows and on POSIX trees without back-slashes in names.
- Manifest.GeneratedComplete: stated of the corrected builder `Generated`; `GeneratedAgrees` carries it to the source's manifest on Windows and on POSIX trees without back-slashes in names.
- Manifest.ManifestExact: stated of the corrected builder `Generated`; the source's manifest splits back into the files' paths only where `GeneratedAgrees` applies.
- Manifest.ManifestPathsDistinct: stated of the corrected builder `Generated`; `AsWrittenManifestCollides` shows the source's manifest can repeat a path on POSIX (see Findings).
- SyncServer.ZipMatchesManifest: stated against the corrected manifest; `ZipMatchesAsWritten` relates the archive to the source's, whose paths differ from the members' names wherever a POSIX name holds a back-slash.
- SyncClient.SyncClient.BackupExistingData: a data directory is its files, so a directory holding only empty sub-directories counts as empty here. The source's `os.listdir` sees the sub-directories, backs them up and records that backup, and a later restore would pick it.
- Config.ConfigManager.Save: a failed write raises in the source; the model always writes.
- Config settings values have no floating-point case, so a JSON or YAML setting holding a float cannot be represented.
- MainCli.InstallSteps: the `shutil.rmtree` of an existing SillyTavern directory after a confirmed reinstall is not recorded among the steps.
- Event.UiEvent.StartSillyTavern: `customArgs` is the text of the `custom_args` setting, given by the caller; reading it with `get` and Python's `str` of a non-string value are not modelled.
- SyncClient.SyncClient.SyncFullZip: the archive is extracted over the existing directory, as the source does, so a local file the archive lacks survives and a later incremental plan deletes it (`StaleFileSurvivesZip`): a bundle sync followed by a manifest diff against the server does not give an empty plan.
- SyncClient.NothingLeftToDelete: stated for a synced directory whose names the host allows (no empty, `.` or `..` name from a remote path such as `a//b`), on Windows and on POSIX without back-slashes in names, where every manifest path names its file; `AsWrittenManifestCollides` shows what goes wrong otherwise.
- MainCli.ConfiguredMirrorUrl and MainCli.Render: non-string mirror settings and list or object ports give `None`, because Python's `str` of those values is not modelled.
- StConfig.StCfg.Set and StConfig.StCfg.Get: keys naming the object's own methods, its YAML handler or dunder attributes are excluded by `requires`; rebinding those is not modelled.
- A YAML document that is not a mapping is treated as unreadable.
- `os.path.normpath` is modelled only through the `..` removal that follows it and the names the file system skips; `normpath`'s own collapsing of `a/../b` is not modelled.
- ZIP compression and byte encoding are not modelled: an archive is its list of member paths and sizes.
- `save_config` in the YAML settings writes only `listen` and `port`, so a proxy chosen by `start_sillytavern` or `auto_detect_and_set_proxy` is never persisted. The model keeps that behaviour: `ApplyProxy` sets the proxy attributes, and its save puts `listen` and `port` into the document, never the proxy.
- Event.UiEvent.TrayChanged: the `Tray` object and its icon are reduced to present or absent; `ok` says whether creating or stopping it raised.
- Event.GitConfig: `configparser`'s `DEFAULT` section, option-name case folding beyond `insteadof`, and a write that fails after truncating the file are not modelled.
- MainCli.CliLauncher.Start: the branch that offers to install a missing SillyTavern and the `os.execvp` that replaces the process are not modelled; the method gives the argument list.
- `show_sync_status`, `_format_size`, `show_config`, `update_launcher`, `update_interactive`, `check_system_env` and the argument parsing of the two command-line entry points are not modelled. They print or dispatch only.
- The GUI layout code, `env.py` (the bundled Git and Node.js paths) and the web UI servers are not part of this model.

## Findings

| source | as written | input that shows it | evidently intended | confidence | as-written member | corrected member |
|---|---|---|---|---|---|---|
| src/sync_server.py:124-125 | `..` is removed from the parameter and the result is joined to the data directory; a leading `/` survives and `os.path.join` then discards the data directory | `GET /file?path=/etc/passwd` | every answer comes from inside the data directory | not executed | SyncServer.TraversalServesHostFile | SyncServer.GetFile |
| src/sync_server.py:124 | every `..` substring is removed, also inside file names | a data file named `a..b` listed in the manifest is requested by its manifest path and answered with 404 | every path the manifest publishes can be fetched | not executed | SyncServer.DotDotNameNotServed | SyncServer.ManifestPathServed |
| src/event.py:402-424 | `execute_command` is an `async def`, so `process` is a coroutine object and always true: a spawn that fails is reported as started and `is_running` stays true; `Event.UiEvent.StartSillyTavern` launches this way | a `node` binary that cannot be started | a failed spawn is reported and clears `is_running`, so the next start is allowed | not executed | Event.FailedSpawnBlocksRestart | Event.FailedSpawnAllowsRetry |
| src/sync_server.py:185 | `relative_path.replace('\\', '/')` (also at src/sync_client.py:126) turns every back-slash into a slash, also one inside a POSIX file name; the model's manifest operations compute this as-written manifest | on a POSIX host, a data directory with the file `a\b` and the file `b` in directory `a`: both are listed as `a/b` | only the host separator is turned into a slash, as `zipfile` does, so manifest paths stay distinct and split back into the file's path | not executed | Manifest.AsWrittenManifestCollides | Manifest.ManifestPathsDistinct |
| src/event.py:1103-1106 | past the gate the handler reads `self.env.git_dir`, but with `use_sys_env` set `self.env` is a `SysEnv` (src/event.py:22-24, 1037-1043), which has no `git_dir` (src/sysenv.py:7-12), so the handler raises and `gitconfig` is never patched | `use_sys_env = true`, `patchgit = true`, then choosing a mirror | with `patchgit` set, the system Git's `gitconfig` is patched | not executed | Event.PatchgitIgnored | Event.PatchgitHonoured |
