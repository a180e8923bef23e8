# Shell alias manager — verified model of its core

This project models the non-UI core of a desktop shell-alias manager:

- **Alias line codec** (`AliasCodec`, src/aliasmanager.cpp). It validates alias names and commands. It formats an alias as `alias name='command'`, or as `alias name="command"` when the command holds a single quote. It parses a configuration line back with the permissive single-pass scanner. It also models the escape/unescape helpers.
- **Config store** (`ConfigFiles`, src/configfilehandler.cpp). A `ConfigFileHandler` object loads, appends and removes alias lines in one shell configuration file and keeps the last error message. Reading splits the file the way `std::getline` does. Writing joins lines with `'\n'` and adds no trailing break.
- **Backup engine** (`Backups`, src/backupmanager.cpp). A `BackupManager` object makes timestamped copies of the configuration file. It runs the rotation policy: rank backups newest first, delete from the cap on, compress ranks 10 to 19. It finds the newest backup and restores from a backup, unpacking a `.xz` one first.
- **Shell detection** (`ShellDetection`, src/shelldetector.cpp). This covers the priority-ordered substring classification of `$SHELL`, the three-phase fallback that never yields UNKNOWN, `~` expansion, and the shell-to-path and shell-to-name maps.

Supporting modules:

- `Text` holds the string primitives: blank trimming, `find`, prefix, suffix and substring tests.
- `FileSystem` holds a `Disk` class, the files the process sees. Each file is a path mapped to an entry with content and modification time. The disk also records which paths cannot be opened for reading or writing, and the time a write stamps. Its methods model `fs::copy_file`, `fs::remove`, the `ofstream` modes and the outcome of the external `xz` tool.
- `Wrappers` holds `Option`.

Strings are `seq<char>`, one `char` per byte of the source's `std::string`. So every length the model states, such as the 255-character name limit, the 2048-character command limit and the `substr(size()-3)` suffix test, counts bytes as the source does.

Both handler classes share one `Disk`, as the source's tests use one file for the config handler and the backup manager.

Operating-system inputs become parameters:

- the environment variables, the password database, the parent process name and the set of existing files (`ShellDetection.Env`);
- the backup directory;
- the timestamp;
- whether `xz` and `fs::remove` succeed.

Where the header comments and the code disagree, the model follows the code:

- `loadAliases` does not throw; it reports through `lastError` (src/configfilehandler.hpp:26).
- The backup directory is `$HOME/.shellbackup`, or the original's directory when `HOME` is unset or the directory cannot be created (src/backupmanager.cpp:118-127), not always the original's directory as the header comment says (src/backupmanager.hpp:63). The model does not choose it: `BackupManager` takes it as a constructor input.
- The compression band is fixed at ranks 10 to 19 whatever the cap.

## Model

| member | source | states |
|---|---|---|
| AliasCodec.ValidateAliasName | src/aliasmanager.cpp:8-26 | true exactly when the name has 1 to 255 characters, starts with an ASCII letter, digit or `_`, and holds only letters, digits, `_` and `-` |
| AliasCodec.ValidationExamples | tests/test_aliasmanager.cpp:5-6 | `ll` and `git_log` are valid names, the empty name and `with space` are not; `ls -la` is a valid command, the empty command is not |
| AliasCodec.ValidateCommand | src/aliasmanager.cpp:28-30 | a command is valid exactly when it has 1 to 2048 bytes; anything else, line breaks included, is accepted |
| AliasCodec.ValidNameChars | src/aliasmanager.cpp:8-26 | a valid name holds no blank, no `=` and no quote |
| AliasCodec.QuoteFor | src/aliasmanager.cpp:32-46 | the formatter quotes with `"` exactly when the command contains `'`, and with `'` otherwise |
| AliasCodec.FormatAlias | src/aliasmanager.cpp:32-46 | the line is nine characters longer than name and command together and ends with the chosen quote |
| AliasCodec.FormattedLineSplit | src/aliasmanager.cpp:32-46 | a formatted line with a valid name starts with `alias`, has no leading blank, its first `=` ends the name, and after it comes the quoted, unescaped command |
| AliasCodec.FormatExample | tests/test_aliasmanager.cpp:7 | `{ll, ls -la}` formats to `alias ll='ls -la'` |
| AliasCodec.ExtractCommandShape | src/aliasmanager.cpp:87-112 | a quoted command is the text up to the next quote of the same kind, or the rest of the line when unclosed; an unquoted command is the text before the first `#`, with no `#`, no trailing blank, and only blanks between it and the `#` |
| AliasCodec.ParseAliasLine | src/aliasmanager.cpp:48-116 | a result with an empty name is the empty alias, and a non-empty name implies the line passes isAliasLine |
| AliasCodec.ParseRejectsShape | src/aliasmanager.cpp:51-68 | a line of blanks, a line whose trimmed form does not start with `alias`, and a line with no `=` all parse to the empty alias |
| AliasCodec.ParseRejectsBlankParts | src/aliasmanager.cpp:70-85 | an `alias` line whose name part or command part is blank parses to the empty alias |
| AliasCodec.ParsedImpliesAliasLine | src/aliasmanager.cpp:118-125 | every line that parses to a non-empty name passes isAliasLine |
| AliasCodec.IsAliasLine | src/aliasmanager.cpp:118-125 | the first character that is neither space nor tab starts the five letters `alias`; a line of blanks is rejected |
| AliasCodec.IsAliasLineShape | src/aliasmanager.cpp:118-125 | every line starting with `alias` is accepted, and every accepted line contains `alias` and has at least five characters |
| AliasCodec.IsAliasLineAccepts | tests/test_aliasmanager.cpp:9 | isAliasLine accepts `alias ll='ls'` and also `aliasfoo=1` |
| AliasCodec.IsAliasLineRejects | tests/test_aliasmanager.cpp:9 | isAliasLine rejects `export X=1` and a blank line |
| AliasCodec.ParseKeywordLine | src/aliasmanager.cpp:48-97 | the parser reads `alias <name>=<q><command><q>`, for a valid name and a quote `q`, as the name and the command up to its first `q` |
| AliasCodec.ParseFormatted | src/aliasmanager.cpp:87-97 | parsing a formatted line with a valid name gives the name back, and the command up to its first occurrence of the chosen quote |
| AliasCodec.FormatParseRoundTrip | src/aliasmanager.cpp:32-46 | format then parse is the identity for a valid name and a command that does not hold both quote kinds |
| AliasCodec.FormatParseTruncates | src/aliasmanager.cpp:87-97 | a command holding both quote kinds comes back strictly shorter, cut at its first `"` |
| AliasCodec.ParseExample | tests/test_aliasmanager.cpp:8 | `alias ll='ls -la'` parses to `{ll, ls -la}` |
| AliasCodec.ExtractQuotedShape | src/aliasmanager.cpp:135-148 | past the end the result is empty; otherwise it is the text after the quote at `start` up to the next same quote or the end of the string |
| AliasCodec.ExtractQuotedString | src/aliasmanager.cpp:135-148 | the text after the quote at `start` up to the next quote of the same kind, the rest of the string when there is none, and "" past the end |
| AliasCodec.QuotedCommandIsExtractQuoted | src/aliasmanager.cpp:87-97 | the parser's quoted branch equals extractQuotedString at the opening quote |
| AliasCodec.EscapeCommand | src/aliasmanager.cpp:150-159 | the loop builds the escaped form: one backslash before each `'`, `"`, `\` and `$` |
| AliasCodec.UnescapeString | src/aliasmanager.cpp:161-177 | the loop with its previous-backslash flag builds the unescaped form: each backslash dropped, the character after it kept |
| AliasCodec.UnescapeEscape | src/aliasmanager.cpp:150-177 | unescaping an escaped string gives the string back |
| AliasCodec.EscapedLength | src/aliasmanager.cpp:150-159 | the escaped string is longer by exactly the number of characters that need escaping |
| AliasCodec.AliasManager.constructor | src/aliasmanager.cpp:6 | the manager starts with the given shell |
| AliasCodec.AliasManager.GetShell | src/aliasmanager.cpp:127-129 | returns the shell the manager holds; the constructor's and SetShell's contracts state that it returns the shell last given |
| AliasCodec.AliasManager.SetShell | src/aliasmanager.cpp:131-133 | the current shell becomes the given one, and GetShell returns it afterwards |
| ShellDetection.FirstIn | src/shelldetector.cpp:46-50 | the first-hit scan over a priority order yields UNKNOWN exactly when no shell of the order is among the hits |
| ShellDetection.FirstInIsFirst | src/shelldetector.cpp:46-50 | a known result is a hit, and every shell before it in the order is not |
| ShellDetection.Matching | src/shelldetector.cpp:46-48 | the shells whose keyword `zsh`, `bash` or `fish` occurs in the path |
| ShellDetection.ClassifyInOrder | src/shelldetector.cpp:46-50 | the classification of a path is ZSH when `zsh` occurs, else BASH when `bash` occurs, else FISH when `fish` occurs, else UNKNOWN |
| ShellDetection.DetectFromEnvironment | src/shelldetector.cpp:39-52 | unset SHELL gives UNKNOWN; `zsh` anywhere wins; BASH exactly when `bash` occurs without `zsh`; FISH exactly when only `fish` occurs; UNKNOWN exactly when SHELL is unset or holds none of the three keywords |
| ShellDetection.ExpandHome | src/shelldetector.cpp:93-114 | an empty path, a path not starting with `~` or a missing home stays unchanged; otherwise the result is the home followed by the path after `~` |
| ShellDetection.ExpandHomeIdempotent | src/shelldetector.cpp:93-114 | expanding twice equals expanding once when the home directory does not start with `~` |
| ShellDetection.GetConfigFilePath | src/shelldetector.cpp:116-131 | empty exactly for UNKNOWN; otherwise the expanded home, `/`, and the shell's configuration file |
| ShellDetection.GetShellName | src/shelldetector.cpp:133-146 | the upper-case name of each shell: `BASH`, `ZSH`, `FISH`, `UNKNOWN` |
| ShellDetection.ShellNameInjective | src/shelldetector.cpp:133-146 | distinct shells have distinct names |
| ShellDetection.WithConfig | src/shelldetector.cpp:54-66 | the known shells whose configuration file below the home directory exists |
| ShellDetection.DetectFromConfigFiles | src/shelldetector.cpp:54-71 | the loop over `.zshrc`, `.bashrc` and `config.fish` returns the first shell whose file exists, UNKNOWN when none exists |
| ShellDetection.DetectShell | src/shelldetector.cpp:14-37 | never UNKNOWN; the environment first, then the configuration files, then the parent process name, then BASH |
| Text.TrimLeftSuffix | src/aliasmanager.cpp:51-57 | trimming the leading blanks keeps a suffix of the line: all of it, or what follows the blanks dropped |
| Text.AllBlankTrimsToEmpty | src/aliasmanager.cpp:51-55 | a line of blanks trims to nothing from either side |
| FileSystem.FileName | src/backupmanager.cpp:23 | the file name is the suffix of the path after its last `/` and holds no `/` |
| FileSystem.FileNameOfJoin | src/backupmanager.cpp:23-24 | the file name of a directory joined with a plain name is that name, and the joined path lies right below the directory |
| FileSystem.Disk.CopyFile | src/backupmanager.cpp:26-31 | the copy succeeds exactly when the source exists, is readable and differs from the writable target; the target then holds the source's content |
| FileSystem.Disk.Remove | src/backupmanager.cpp:57 | on success the path is gone and nothing else changes |
| FileSystem.Disk.Compress | src/backupmanager.cpp:59-62 | `xz` succeeds only on an existing file whose `.xz` name is free; the file is replaced by its `.xz` twin with the same entry |
| FileSystem.Disk.Decompress | src/backupmanager.cpp:73-80 | `xz -d -k -f` succeeds only on an existing file; it writes the unpacked file next to the packed one and keeps both |
| FileSystem.Disk.AppendFile | src/configfilehandler.cpp:39-44 | append mode creates an absent file and adds the text after the old content |
| FileSystem.Disk.WriteFile | src/configfilehandler.cpp:96-104 | truncating mode replaces the content |
| ConfigFiles.LineOf | src/configfilehandler.cpp:92 | what one getline call yields holds no line break |
| ConfigFiles.SplitLines | src/configfilehandler.cpp:87-94 | the getline loop yields no line exactly when the file is empty |
| ConfigFiles.SplitHasNoBreaks | src/configfilehandler.cpp:87-94 | no line read holds a line break |
| ConfigFiles.JoinLines | src/configfilehandler.cpp:95-107 | the lines with one break between neighbours and none after the last; JoinEnding and ReadAfterWrite state what reading it back gives |
| ConfigFiles.SplitAppend | src/configfilehandler.cpp:44 | appending a break and a line adds that line at the end, after an empty line when the content was empty or already ended in a break |
| ConfigFiles.JoinEnding | src/configfilehandler.cpp:101-104 | for a non-empty list of break-free lines, the written text is empty or ends in a break exactly when the last line written is empty |
| ConfigFiles.ReadAfterWrite | src/configfilehandler.cpp:87-107 | reading back written lines gives the lines, minus a final empty line |
| ConfigFiles.AliasesIn | src/configfilehandler.cpp:20-28 | loading yields at most one alias per line, each with a non-empty name |
| ConfigFiles.AliasesInAppend | src/configfilehandler.cpp:20-28 | loading is a per-line filter and map: the aliases of two line runs are concatenated in order |
| ConfigFiles.AliasOfParsed | src/configfilehandler.cpp:22-25 | a line that parses to a name contributes exactly its parse |
| ConfigFiles.LoadAfterAdd | src/configfilehandler.cpp:30-47 | for a command with no line break: after an add, loading yields the old aliases followed by the parse of the new line, which is the alias itself unless its command holds both quote kinds |
| ConfigFiles.AddedBreakInjectsAlias | src/configfilehandler.cpp:30-47 | a command `c1` + break + `alias m=d` (no `'` in either part) passes validation when it has at most 2048 bytes, yet loads back as two aliases: `{n, c1}` and `{m, d'}`, the second never added |
| ConfigFiles.Without | src/configfilehandler.cpp:58-69 | the kept lines are no more than before and none names the alias; every kept line is an old line and every old line not naming the alias is kept; they equal the old lines exactly when no line named it |
| ConfigFiles.WithoutAppend | src/configfilehandler.cpp:58-69 | each line is decided on its own: the kept lines of two runs are those of the first run followed by those of the second, so the order is kept |
| ConfigFiles.WithoutNoBreaks | src/configfilehandler.cpp:58-69 | removal keeps every line free of breaks |
| ConfigFiles.DropNamed | src/configfilehandler.cpp:61-69 | no remaining alias has the name and each comes from the old list; every old alias of another name remains; nothing changes when no alias had the name |
| ConfigFiles.DropNamedAppend | src/configfilehandler.cpp:61-69 | each alias is decided on its own: what remains of two runs is what remains of the first followed by what remains of the second |
| ConfigFiles.AliasesWithout | src/configfilehandler.cpp:61-69 | the aliases of the kept lines are the old aliases minus those with the name, in order |
| ConfigFiles.LoadAfterRemove | src/configfilehandler.cpp:48-75 | after a remove, loading yields the old aliases without those with the name, the others in their old order |
| ConfigFiles.DropNamedSnoc | src/configfilehandler.cpp:61-69 | an alias appended last is dropped exactly when it has the name |
| ConfigFiles.AddTwiceThenRemoveFirst | tests/test_confighandler.cpp:46-56 | for two commands with no line break and not both quote kinds: after adding two aliases and removing the first, loading yields the earlier aliases without the removed name, then the second alias |
| ConfigFiles.ExpandBelowHome | src/configfilehandler.cpp:76-83 | expanding `~/file` is expanding `~`, then `/file` |
| ConfigFiles.StandardPath | src/configfilehandler.cpp:76-83 | the handler's `~/` paths expand to the shell detector's configuration path |
| ConfigFiles.ConfigFileHandler.constructor | src/configfilehandler.cpp:7-8 | the handler keeps the path, the shell and the disk, with no error yet |
| ConfigFiles.ConfigFileHandler.GetConfigFilePath | src/configfilehandler.cpp:76-83 | a known shell gives its standard configuration path; UNKNOWN gives the path the handler was built with |
| ConfigFiles.ConfigFileHandler.ReadAllLines | src/configfilehandler.cpp:87-94 | the getline loop returns the file's lines, and none when the file cannot be opened |
| ConfigFiles.ConfigFileHandler.LoadAliases | src/configfilehandler.cpp:9-29 | a missing file and an unopenable file each give no aliases and their own message; otherwise the result is the aliases of the file's lines, in order, and lastError is untouched |
| ConfigFiles.ConfigFileHandler.EnsureFileExists | src/configfilehandler.cpp:115-121 | true when the file exists or can be created; an absent writable file is created empty |
| ConfigFiles.ConfigFileHandler.AddAlias | src/configfilehandler.cpp:30-47 | an invalid alias fails with "Invalid alias name or command" and touches nothing; an unwritable file fails with the create or open message; otherwise the content becomes the old content (or nothing) plus a break and the formatted line |
| ConfigFiles.ConfigFileHandler.WriteAllLines | src/configfilehandler.cpp:95-107 | on an openable file the content becomes the lines joined by breaks; otherwise "Cannot open file for writing" and nothing changes |
| ConfigFiles.ConfigFileHandler.RemoveAlias | src/configfilehandler.cpp:48-75 | a missing file, no lines, and no matching line each fail with their message and write nothing; otherwise the file is rewritten with every matching line dropped |
| Backups.BackupBaseName | src/backupmanager.cpp:169-171 | the base name is the original's file name with `.bak`: it ends in `.bak`, holds no `/`, and is at most four characters longer than the path |
| Backups.BackupFileName | src/backupmanager.cpp:22-23 | the backup name starts with the base name `file.bak` and holds no `/` |
| Backups.NewBackupListed | src/backupmanager.cpp:98-116 | a created backup is among those listBackups reports |
| Backups.IsNewer | src/backupmanager.cpp:175-181 | true exactly when both files exist and the first has the later modification time; a missing file (the caught exception) gives false |
| Backups.IsNewerIsStrictOrder | src/backupmanager.cpp:175-181 | isNewer is irreflexive, asymmetric and transitive; a missing file is never newer |
| Backups.Cap | src/backupmanager.cpp:38 | a non-positive cap becomes 20; a positive one is kept |
| Backups.InsertNewestFirst | src/backupmanager.cpp:48-49 | inserting one more backup into a newest-first ranking keeps it newest first, adds exactly that backup, and keeps the paths distinct |
| Backups.SortNewestFirst | src/backupmanager.cpp:48-49 | the sort returns the same paths, newest first |
| Backups.RankingNeverNewerLater | src/backupmanager.cpp:48-49 | in the ranking no later backup is newer than an earlier one |
| Backups.SortedListingIsRanking | src/backupmanager.cpp:40-49 | the sorted listing holds each listed backup once, newest first |
| Backups.RotateStep | src/backupmanager.cpp:54-64 | one round touches only the backup at its rank and its `.xz` name, adds at most one to the count, and sets lastError only to the compression-failure message |
| Backups.Rotate | src/backupmanager.cpp:51-67 | the state after the loop has treated the first `k` ranks; the count grows by at most `k` |
| Backups.RotationCountsRemovals | src/backupmanager.cpp:51-67 | the count returned is the number of removals that succeeded |
| Backups.AllRemovalsCounted | src/backupmanager.cpp:53-57 | when every removal succeeds the count is the number of backups past the cap |
| Backups.KeptBackupSurvives | src/backupmanager.cpp:53-65 | a backup below the cap and outside the band, or already compressed, is still there with its entry |
| Backups.RemovedBackupGone | src/backupmanager.cpp:56-57 | a backup at or past the cap whose removal succeeds is gone |
| Backups.FailedRemovalKeeps | src/backupmanager.cpp:56-57 | a backup at or past the cap whose removal fails is skipped and stays with its entry through the whole rotation |
| Backups.FailedCompressionKeeps | src/backupmanager.cpp:58-62 | a band backup below the cap whose compression fails keeps its plain file and entry through the whole rotation |
| Backups.RotationErrorIsCompression | src/backupmanager.cpp:51-67 | after the rotation lastError is either what it was or "Failed to compress backup: " with the path of a band backup below the cap |
| Backups.FailedCompressionRecorded | src/backupmanager.cpp:58-62 | a failed band compression is the final lastError, with its path, when every later band backup compresses |
| Backups.BandBackupCompressed | src/backupmanager.cpp:58-63 | a band backup below the cap whose compression succeeds is replaced by its `.xz` file with the same entry |
| Backups.OtherFilesUntouched | src/backupmanager.cpp:53-65 | files that are neither ranked backups nor their `.xz` names are untouched |
| Backups.RotationWhenAllSucceed | src/backupmanager.cpp:37-68 | when everything succeeds: ranks under 10 kept, ranks 10 to 19 below the cap compressed, ranks from the cap on deleted, and the count is the surplus over the cap |
| Backups.StrictlyNewestRanksFirst | src/backupmanager.cpp:48-49 | a backup strictly newer than all others ranks first |
| Backups.NewBackupKept | src/backupmanager.cpp:33-34 | a new backup strictly newer than the others survives the rotation with the original's content |
| Backups.FirstRankedIsNewest | src/backupmanager.cpp:144-147 | the first ranked backup is listed and no listed backup is newer |
| Backups.BackupManager.constructor | src/backupmanager.cpp:13-14 | the manager keeps the original path, the backup directory and the disk, with no error yet |
| Backups.BackupManager.ListBackups | src/backupmanager.cpp:98-116 | each file right below the backup directory whose name contains `file.bak` is reported once, and nothing else; an empty directory path gives nothing |
| Backups.BackupManager.SortListing | src/backupmanager.cpp:48-49 | sorting the listing yields each listed backup once, newest first |
| Backups.BackupManager.RankBackups | src/backupmanager.cpp:40-49 | the listed backups, each once, newest first |
| Backups.BackupManager.RotateOne | src/backupmanager.cpp:54-64 | one loop round applies the rotation rule to the backup at its rank |
| Backups.BackupManager.CleanupAndCompressOldBackups | src/backupmanager.cpp:37-68 | ranks the listed backups newest first; the disk, the count and lastError end as the rotation rule says |
| Backups.BackupManager.CreateBackup | src/backupmanager.cpp:16-35 | a missing original gives "" and its message; a refused copy gives "" and the copy-failure message, with nothing changed; otherwise the backup holds the original's content, is rotated with cap 20, and its path is returned |
| Backups.BackupManager.RestoreFromBackup | src/backupmanager.cpp:70-96 | a failed unpack, a missing backup and a refused copy each fail with their message; a `.xz` backup is first unpacked next to itself; on success the original holds the backup's content |
| Backups.BackupManager.GetLastBackupPath | src/backupmanager.cpp:131-148 | "" exactly when nothing is listed; otherwise a listed backup that no listed backup is newer than |
| Backups.BackupManager.RestoreFromLastBackup | src/backupmanager.cpp:150-157 | with no backup it fails with "No backup found" and changes nothing; otherwise it restores from a newest listed backup, with every outcome of restoreFromBackup (the same RestoredFrom relation RestoreFromBackup is proved against) |

## Left out

- The Qt window, dialogs, styling and the program entry point (src/mainwindow.cpp, src/main.cpp) are out of scope; they hold no logic of the core.
- `setFilePermissions` and `checkPermissions` are left out: `chmod` and `stat` mode bits are not modelled.
- `generateTimestamp` is left out because it reads the wall clock. `CreateBackup` takes the timestamp as input and only requires its `YYYYMMDD_HHMMSS` shape.
- `getBackupDirectory` is left out because it reads `$HOME` and creates directories. The directory is a constructor input of `BackupManager`.
- `getParentProcess` is left out because it reads `/proc`. So are the `getenv` and `getpwuid` lookups. Their results are fields of `ShellDetection.Env`.
- `cleanupOldBackups` is declared in the header but never defined, so it is not modelled.
- The bytes of a compressed backup are not modelled: the `.xz` file holds the same abstract content and keeps the modification time.
- Backups.BackupManager.CreateBackup: the exception text `e.what()` after "Failed to create backup: " is left open; the same holds for the restore-failure message.
- Backups.BackupManager.RestoreFromBackup: requires a path of at least three characters, because `substr(size()-3)` on a shorter path throws `std::out_of_range` and the model does not cover that exception.
- Backups.BackupManager.CleanupAndCompressOldBackups: a backup that vanishes between the listing and `last_write_time` is skipped by the source; the model assumes the disk does not change under the process.
- Backups.BackupManager.ListBackups: a directory iterator that fails halfway through yields a partial list in the source; the model yields the full list or, for an empty directory path, nothing.
- Backups.SortNewestFirst: `std::sort` works in place on a vector; the model sorts a sequence with an insertion sort. Only its ordering and permutation contract is claimed.
- ShellDetection.DetectShell: the parent process name is given as text; the `/proc` lookup that produces it is not modelled.
- AliasCodec.ValidateAliasName: `std::isalnum` is modelled for the "C" locale (ASCII letters and digits) only.
- ConfigFiles.LoadAfterAdd: requires a command without a line break. `validateCommand` accepts breaks and `addAlias` writes the command verbatim, so such a command is read back as several lines; AddedBreakInjectsAlias shows one that adds a second, never-requested alias.
- ConfigFiles.AddTwiceThenRemoveFirst: requires commands without a line break, for the same reason as LoadAfterAdd.
- Concurrent access, crashes during a rewrite and partial writes are not modelled.
