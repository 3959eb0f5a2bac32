# Scrappy, modelled in Dafny

Scrappy renames the video files of one TV series after the records of
thetvdb.com. Its pipeline:

1. It guesses the series name from the file names, by a vote over the
   per-file guesses. The vote counts each normalized name and keeps its
   highest confidence.
2. It picks one show among the search hits.
3. It matches each file to a season/episode record.
4. It renames the files in place. Depending on the revision, it rolls back
   on failure.

The repository holds three revisions of this pipeline:

- `scrappy.py`, the first revision;
- `scrappy/scrape.py`, the second;
- `scrappy/core.py`, the third. It adds a `FileSystemInterface` that
  tracks the files and what each was renamed from, and a `QueryGrabber`
  that chooses among the search results.

`scrappy/formatters.py` holds the name-formatting helpers. Each revision is
modelled as it is written, because they really do differ. Where a revision
is evidently wrong, the model keeps the code as written, proves what it
actually does, and gives a corrected definition beside it (see Findings).

How the model is laid out:

- **Shared value modules.** `Wrappers` models Python's None and raised
  exceptions as `Option`/`Result`/`Outcome`. `Strings` holds strip, lower,
  title, split, join, zfill, `int()` and `str()`. `Paths` holds
  `os.path.split` and `join`. The other value modules are `Sorting`
  (`sorted`), `Dicts` (dictionaries in insertion order), `Disk` (the file
  system as a set of names, with a rename that can fail), `EditDistance`,
  `Votes` (the tallies of the series-name vote), `Hits` (the search hits of
  getTVDBid), `EpisodeMatch` (the episode scan of both mapSeriesInfo
  versions) and `Rollback` (renameFiles of `scrappy.py`).
- **Pure code becomes functions and lemmas.** This covers the formatters,
  the string helpers, compare_strings, the selection rules and the vote's
  outcome.
- **Code that updates state becomes imperative Dafny.** Classes keep the
  source's fields, and methods carry loops with invariants:
  - the Levenshtein table;
  - the tally and ranking loops;
  - stripTags popping from its list;
  - the rename loops, which update `old_` and the disk;
  - `FileSystemInterface`'s list and dictionary.

  Each such method is proved equal to a specification function, and the
  properties are proved about that function.
- **Collaborators become parameters.** These are the guessit guesser, the
  tvdb search results and series record, the mimetype check, the directory
  listing and os.rename.

## Model

| member | source | states |
|---|---|---|
| Strings.LowerString | scrappy/core.py:31-32 | str.lower(): same length, each character ASCII-lowered |
| Strings.StripLeft | scrappy/core.py:31-32 | lstrip: the result is a suffix of the input, it does not start with whitespace, and everything cut was whitespace |
| Strings.StripRight | scrappy/core.py:31-32 | rstrip: the result is a prefix of the input, it does not end with whitespace, and everything cut was whitespace |
| Strings.StripIsTrimmed | scrappy/core.py:31-32 | strip() leaves no whitespace at either end |
| Strings.StripKeepsTrimmed | scrappy/core.py:31-32 | strip() does not change a string without whitespace at either end |
| Strings.NormalizeIdempotent | scrappy/core.py:31-32 | normalizing twice is the same as normalizing once, so a stored normalized name compares equal to its normal form |
| Strings.LowerStringIdempotent | scrappy/core.py:31-32 | lower() is idempotent |
| Strings.LowerKeepsTrimmed | scrappy/core.py:31-32 | lower() keeps a trimmed string trimmed |
| Strings.NormalizeShorter | scrappy/core.py:31-32 | normalize never lengthens a string |
| Strings.Normalize | scrappy/core.py:31-32 | normalize(s) is s.strip().lower(); NormalizeIdempotent and NormalizeShorter state that it is idempotent and never lengthens its input |
| Strings.Strip | scrappy/core.py:32 | str.strip(); StripIsTrimmed and StripKeepsTrimmed state that it leaves no whitespace at either end and keeps trimmed strings |
| Strings.TitleFrom | scrappy/formatters.py:7 | str.title() keeps the length and puts spaces at exactly the same positions |
| Strings.Title | scrappy/formatters.py:7 | str.title() over ASCII; TitleFrom states that it keeps the length and the space positions, and TitleCases states the character at every position |
| Strings.TitleFromCases | scrappy/formatters.py:7 | at every position an uncased character is kept, a cased character after a cased one is lowered, and the first cased character of each run is raised |
| Strings.TitleCases | scrappy/formatters.py:7 | str.title() capitalizes the first letter of each run of letters and lowers the rest, keeping every other character |
| Strings.Split | scrappy/formatters.py:7 | str.split(sep): at least one part, no part contains sep, exactly one part when sep does not occur, more when it does |
| Strings.JoinSplit | scrappy/formatters.py:7 | joining the parts of `split(a)` with b is replacing every a by b |
| Strings.Join | scrappy/formatters.py:7 | sep.join(parts); JoinSplit states that joining the parts of split(a) with b replaces every a by b |
| Strings.LastPieceIsTextAfterLastSep | scrappy/scrape.py:148 | `s.split('.')[-1]` is a suffix of s without '.', and is preceded by '.' when it is not all of s |
| Strings.LastPieceAfterSep | scrappy/scrape.py:148 | the text after the last '.' of `a + "." + e`, where e has no '.', is e |
| Strings.LastPiece | scrappy/scrape.py:148 | s.split(sep)[-1]; LastPieceIsTextAfterLastSep and LastPieceAfterSep state that it is the text after the last sep |
| Strings.ZFill | scrappy/formatters.py:14 | str.zfill(width): the result has length max(len, width); it is unchanged when long enough; otherwise '0's are padded on the left, after a sign if there is one |
| Strings.NatToString | scrappy.py:281-282 | str(n) gives non-empty digits whose value is n; it is one character exactly when n < 10 |
| Strings.ParseIntToString | scrappy.py:284 | int(str(n)) == n for every integer |
| Strings.ParseInt | scrappy.py:284 | int(s): optional surrounding whitespace, an optional sign and at least one digit, ValueError otherwise; ParseIntToString states that it reads back str(n) |
| Strings.IntToString | scrappy.py:281-282 | str(n) for any integer; NatToString states its digits and ParseIntToString that int() reads it back as n |
| Paths.RStripSlash | scrappy/scrape.py:168 | the trailing-slash strip inside os.path.split: a prefix, with only '/' removed |
| Paths.HeadIsCanonical | scrappy/scrape.py:168 | os.path.split(p)[0] is empty, only slashes, or does not end in '/' |
| Paths.JoinStaysInDirectory | scrappy/scrape.py:168 | a name without '/' joined to such a directory splits back into that directory and that name |
| Paths.InSameDirectoryKeepsDirectory | scrappy/core.py:285 | `os.path.join(get_path(f), name)` has f's directory and the name as its last part |
| Paths.Head | scrappy/scrape.py:168 | os.path.split(p)[0]; HeadIsCanonical and JoinStaysInDirectory state its shape and that it gives back a joined directory |
| Paths.Tail | scrappy/core.py:27-28 | os.path.split(p)[1], which get_filename returns; JoinStaysInDirectory states that it gives back a joined name |
| Paths.PathJoin | scrappy/scrape.py:94 | os.path.join(a, b); JoinStaysInDirectory states that splitting the result gives back a and b |
| Paths.InSameDirectory | scrappy/core.py:285 | os.path.join(get_path(f), name); InSameDirectoryKeepsDirectory states that the result keeps f's directory and ends in name |
| Sorting.Insert | scrappy/core.py:402 | inserting into a sorted list keeps it sorted and adds exactly the element |
| Sorting.Sort | scrappy/core.py:402 | sorted(): the result is sorted and is a permutation of the input |
| Sorting.SortKeepsElements | scrappy/core.py:402 | sorting keeps exactly the elements, and a list without duplicates stays without them |
| Sorting.LessEq | scrappy/core.py:402 | Python's code-point order on strings, which sorted() uses; LessEqTotal, LessEqTransitive and LessEqAntisymmetric state that it is a total order |
| Dicts.Assign | scrappy/core.py:424 | `d[k] = v`: the map is updated; a new key goes last and a present key keeps its place |
| Dicts.Without | scrappy/core.py:425 | the key list without k holds exactly the other keys and stays duplicate-free |
| Dicts.Pop | scrappy/core.py:425 | `d.pop(k)` succeeds exactly when k is a key; it returns d[k] and removes only k |
| Dicts.FromKeys | scrappy/core.py:366 | `{f: None for f in files}` has exactly the files as keys, each mapped to the value, in list order |
| Disk.Moved | scrappy/core.py:423 | a successful os.rename adds the target, removes the source when it differs from the target, and changes no other name |
| Disk.Inverse | scrappy.py:264-265 | the undo renames swap every source and target |
| Disk.MovesBalance | scrappy.py:261 | across successful renames, the names removed and added balance as multisets |
| Disk.UndoRestores | scrappy.py:264-265 | renames followed by their inverse restore the original names, when every undo succeeds |
| Disk.InverseBalances | scrappy.py:264-265 | renames followed by their inverse take away as many of each name as they add |
| Disk.Disk.Rename | scrappy/core.py:423 | os.rename succeeds exactly when the source exists and the target is free or is the source itself, and it moves exactly that name |
| Disk.CanMove | scrappy/core.py:423 | when os.rename succeeds: the source exists and the target is free or is the source itself; Disk.Disk.Rename succeeds exactly then |
| Disk.ApplyMoves | scrappy.py:261 | renames run one after another, None when one fails; MovesBalance and UndoRestores state what a successful run removes, adds and restores |
| EditDistance.DistanceSymmetric | scrappy/core.py:39-40 | the edit distance is symmetric, which is what the argument swap relies on |
| EditDistance.DistanceToSelf | scrappy/core.py:35-54 | a string is at distance 0 from itself |
| EditDistance.DistanceZeroMeansEqual | scrappy/core.py:35-54 | distance 0 implies equal strings |
| EditDistance.DistanceZeroIffEqual | scrappy/core.py:35-54 | distance 0 exactly for equal strings |
| EditDistance.DistanceBounds | scrappy/core.py:41-42 | the distance lies between the length difference and the longer length, so an empty string is at the other's length |
| EditDistance.DistanceStep | scrappy/core.py:48-51 | each table cell is the minimum of insertion, deletion and substitution over the shorter prefixes |
| EditDistance.Distance | scrappy/core.py:35-54 | the edit distance by its recurrence, the reference the table loop is proved against; DistanceSymmetric, DistanceZeroIffEqual and DistanceBounds state its properties |
| EditDistance.LevenshteinDistance | scrappy/core.py:33-54 | levenshtein_distance returns the edit distance of the normalized strings, whichever of them is longer (levenshteinDistance at scrappy.py:64-83 and scrappy/scrape.py:45-64 is the same code) |
| EditDistance.NormalizedSwap | scrappy/core.py:37-38 | the swapped self-call, normalizing the normalized strings again, measures the same distance as the original order |
| EditDistance.FillTable | scrappy/core.py:39-54 | an empty first string gives the length of the other; otherwise the row-by-row loop ends with the edit distance in the last cell |
| EditDistance.FillRow | scrappy/core.py:43-50 | one turn of the outer loop turns the distances of a[..i] to every prefix of b into those of a[..i + 1] |
| EditDistance.CellIsDistance | scrappy/core.py:46-49 | the minimum of the three candidate costs built from the neighbouring cells is the distance at the cell |
| EditDistance.CompareStringsZeroIffEqual | scrappy/core.py:57-68 | compare_strings raises ZeroDivisionError exactly for two empty strings; otherwise it is never negative and is 0 exactly when the normal forms are equal |
| EditDistance.Coefficient | scrappy/core.py:66-67 | max(0, d / mean) is never negative, is 0 exactly for distance 0, and is at most 2 while the distance does not exceed the sum of the lengths |
| EditDistance.CompareStringsSymmetric | scrappy/core.py:57-68 | compare_strings is symmetric |
| EditDistance.CompareStringsAtMostTwo | scrappy/core.py:67-68 | dividing by the mean of the raw lengths bounds the coefficient by 2, not 1 |
| EditDistance.CompareStringsExceedsOne | scrappy/core.py:57-68 | compare_strings(s, "") is 2.0 for every non-empty s already in normal form, against the documented 0-to-1 range |
| EditDistance.CompareStrings | scrappy/core.py:57-68 | compare_strings: the normalized distance over the mean of the raw lengths, floored at 0; the CompareStrings lemmas state its error case, zero case, symmetry and bound |
| EditDistance.SingleLetterNormal | scrappy/core.py:30-31 | normalize("a") is "a", so compare_strings("a", "") is one such case |
| EditDistance.DifferenceCoefficientInRange | scrappy/core.py:58-65 | the coefficient as documented (distance over the longer normalized length) lies in [0, 1] |
| EditDistance.DifferenceCoefficientZeroIffEqual | scrappy/core.py:58-65 | the documented coefficient is 0 exactly when the normal forms are equal |
| EditDistance.DifferenceCoefficientSymmetric | scrappy/core.py:58-65 | the documented coefficient is symmetric |
| EditDistance.DifferenceCoefficientLengthBound | scrappy/core.py:58-65 | the documented coefficient is at least (longer - shorter) / longer |
| EditDistance.DifferenceCoefficient | scrappy/core.py:58-65 | the coefficient the docstring describes, distance over the longer normalized length; the DifferenceCoefficient lemmas state its range, zero case, symmetry and lower bound |
| Votes.GuessesOf | scrappy.py:294 | the guesser is applied to every file, in order |
| Votes.WithSeries | scrappy.py:295 | `[g for g in guesses if 'series' in g]`: keeps exactly the guesses with a series, and nothing else |
| Votes.ToVotesNormalized | scrappy.py:302 | each vote carries its guess's normalized series name, which is itself normalized |
| Votes.ToVotes | scrappy.py:301-302 | the votes the tally casts, each guess's normalized name and confidence; ToVotesNormalized states that the names are normalized |
| Votes.Names | scrappy.py:303-307 | the tally keys: distinct, and every vote's name is one |
| Votes.NamesAreVoteNames | scrappy.py:303-307 | every tally key is some vote's name |
| Votes.NamesEmpty | scrappy.py:296-300 | there is a key exactly when there is a vote |
| Votes.UnnamedNotCounted | scrappy.py:303-310 | a name no guess carries is counted 0 times, with confidence 0.0 |
| Votes.TalliesOfOthers | scrappy.py:303-310 | a guess changes only the tallies of its own name |
| Votes.TallyOfOwn | scrappy.py:303-310 | a guess adds 1 to its name's count, may raise its highest confidence, and appends a new name at the end |
| Votes.Count | scrappy.py:303-306 | how many votes carry a name; TallyOfOwn and TallyVote state that the normalCount dictionary holds it |
| Votes.HighConf | scrappy.py:307-310 | the highest confidence among a name's votes, 0.0 when none is higher; TallyOfOwn and TallyVote state that high_conf holds it |
| Votes.Score | scrappy.py:313 | count times highest confidence; TalliedScore states that the dictionary score equals it |
| Votes.TallyVote | scrappy/scrape.py:110-118 | one tally turn on the dictionaries leaves them holding, for each name seen, its count and highest confidence over the votes so far plus the new one |
| Votes.TallyStep | scrappy/scrape.py:110-118 | one turn of the tally loop keeps the dictionaries equal to count and highest confidence for the votes so far |
| Votes.TalliedScore | scrappy/scrape.py:121 | the dictionary score `high_conf[key] * normalCount[key]` is the name's Score |
| Votes.MaxScore | scrappy/core.py:194 | no name scores above the maximum |
| Votes.RankedEntries | scrappy/core.py:193 | every key of `ranked` is the score of the name it maps to; the maximum score is a key and no key exceeds it |
| Votes.RankedTopIsBest | scrappy/core.py:193-194 | the name under the highest key of `ranked` has a score no name exceeds |
| Votes.Ranked | scrappy/core.py:193 | the dict score -> name, a later name replacing an earlier one of equal score; RankedEntries and RankedTopIsBest state its keys and its top entry |
| Votes.LastPositiveIsLast | scrappy.py:314-319 | with the old score stuck at 0.0, the loop picks a positive-score name after which no name scores above 0; it gives None when no score is positive |
| Votes.VotedLastPositive | scrappy.py:314-320 | over the votes' names: None exactly when no vote scores above 0; otherwise a vote's name with a positive score |
| Votes.LastPositive | scrappy.py:314-319 | the ranking loop with the old score stuck at 0.0; LastPositiveIsLast and VotedLastPositive state that it picks the last positive-score name |
| Votes.FirstBestIsFirstMaximum | scrappy/scrape.py:122-127 | with the old score kept up to date, the loop picks the first name of maximal, positive score; None when no score is positive |
| Votes.VotedFirstBest | scrappy/scrape.py:122-127 | over the votes' names: None exactly when no vote scores above 0; otherwise a vote's name of maximal score, every earlier name scoring strictly less |
| Votes.FirstBestIsVoted | scrappy/scrape.py:122-127 | the name picked is a vote's name |
| Votes.FirstBest | scrappy/scrape.py:122-127 | the ranking loop with the old score following the best; FirstBestIsFirstMaximum and VotedFirstBest state that it picks the first maximal name |
| Formatters.FormatDotTitleReplacesSpaces | scrappy/formatters.py:4-7 | formatDotTitle keeps the length, leaves no space, turns each space into '.' at the same place and title-cases the rest |
| Formatters.FormatDotTitleTwoWords | scrappy/formatters.py:4-7 | two lower-case words separated by a space become the capitalized words joined by '.' |
| Formatters.FormatDotTitleExample | scrappy/formatters.py:5 | "example title" becomes "Example.Title" |
| Formatters.FormatDotTitle | scrappy/formatters.py:4-7 | formatDotTitle; FormatDotTitleReplacesSpaces, FormatDotTitleTwoWords and FormatDotTitleExample state what it makes of a text |
| Formatters.FormatSXXEXXExample | scrappy/formatters.py:11-12 | season "1" and episode "23" give "S01E23" |
| Formatters.CodeLayout | scrappy/formatters.py:10-14 | the code is 'S', the zero-filled season, 'E', the zero-filled episode, at fixed positions |
| Formatters.ZFillRoundTrip | scrappy/formatters.py:14 | zfill(2) of str(n) for n < 100 is two characters and reads back as n |
| Formatters.FormatSXXEXXRoundTrip | scrappy/formatters.py:10-14 | for numbers below 100 the code is six characters and both numbers read back from it |
| Formatters.FormatSXXEXX | scrappy/formatters.py:10-14 | formatSXXEXX; CodeLayout, FormatSXXEXXRoundTrip and FormatSXXEXXExample state its layout and that both numbers read back |
| Formatters.RenderParts | scrappy/formatters.py:17-21 | each part of a layout is rendered by its table entry's function on its keys' fields |
| Formatters.DefaultLayout | scrappy/formatters.py:17-23 | the default table renders as dotted series name, '.', SxxEyy code, '.', dotted episode name |
| Formatters.RenderPart | scrappy/formatters.py:18-20 | one table entry: its function applied to the fields its keys name; RenderParts states that every part of a layout is rendered so |
| Formatters.Render | scrappy/formatters.py:17-22 | a name laid out by a table, its parts in order joined with its separator; DefaultLayout states what the default table gives |
| CoreFiles.Distinct | scrappy/core.py:390-393 | the `seen` set: each found path once, nothing else |
| CoreFiles.ProcessFiles | scrappy/core.py:389-402 | _process_files returns a sorted, duplicate-free list of exactly the found paths whose type is video |
| CoreFiles.Files | scrappy/core.py:365 | `filter(os.path.isfile, ...)` keeps exactly the regular files |
| CoreFiles.Missing | scrappy/core.py:458 | `[f for f in files if f not in self._files]` keeps exactly the untracked paths |
| CoreFiles.ResetAll | scrappy/core.py:461 | `_old.update({k: None ...})` maps exactly the listed keys to None and keeps the other entries |
| CoreFiles.RenameSpec | scrappy/core.py:422-425 | rename(old, new) on the disk and `_old`; RenameRecordsOrigin and RenameToSelfDropsOrigin state when it goes through and what `_old` becomes |
| CoreFiles.RenameRecordsOrigin | scrappy/core.py:422-425 | rename(old, new) goes through exactly when the disk rename can be made and old is a key (or new is old). `_old` then has no key old, maps new to old when they differ, and is otherwise unchanged. OSError changes nothing |
| CoreFiles.RenameToSelfDropsOrigin | scrappy/core.py:422-433 | rename(f, f) of a file on the disk succeeds and leaves the disk unchanged, but f loses its `_old` entry, so a later revert([f]) raises KeyError |
| CoreFiles.RevertUndoesRename | scrappy/core.py:427-433 | renaming a tracked file to a different free name and then reverting the new name restores the disk, and `_old` maps the file to the name it had been given |
| CoreFiles.SwapBack | scrappy/core.py:427-433 | after a rename and its reversal, `_old` maps the file to the name it had been given, has no entry for that name, and keeps every other entry |
| CoreFiles.RevertSpec | scrappy/core.py:427-433 | revert(keys): each key renamed back to its recorded name, stopping at the first exception; RevertUndoesRename states that it undoes a rename |
| CoreFiles.ListIndex | scrappy/core.py:444 | list.pop(i) accepts exactly -n <= i < n, counting negatives from the end |
| CoreFiles.PopNameFixedSpec | scrappy/core.py:442-450 | pop(name) as intended succeeds exactly when the name is a key, and removes it from both the list and `_old` |
| CoreFiles.EnumeratePop | scrappy/core.py:446-448 | the enumerate loop removes the name from the list, and leaves in `key` the last element it visited |
| CoreFiles.PoppedKeyAt | scrappy/core.py:446-450 | for a tracked name at index j, the key handed to `_old.pop` is the name itself when j is one of the last two indices and the last tracked name otherwise |
| CoreFiles.PoppedKeyAbsent | scrappy/core.py:446-450 | for an untracked name, the key is the last tracked name, and there is none when nothing is tracked |
| CoreFiles.PoppedKey | scrappy/core.py:446-450 | the key the enumerate loop leaves for `_old.pop`; PoppedKeyAt and PoppedKeyAbsent state it for a tracked and an untracked name |
| CoreFiles.PopNameSpec | scrappy/core.py:442-450 | pop(name) as written: the name leaves the list and PoppedKey leaves `_old`; PopNamePopsWrongKey, PopNameSecond and PopNameThird show the wrong key |
| CoreFiles.PopNamePopsWrongKey | scrappy/core.py:442-450 | pop("a") on [a, b, c] removes c's entry from `_old` and keeps a's |
| CoreFiles.PopNameSecond | scrappy/core.py:442-450 | the next pop("b") then removes b from both |
| CoreFiles.PopNameThird | scrappy/core.py:442-450 | and pop("c") raises KeyError |
| CoreFiles.ClearRaisesOnThree | scrappy/core.py:452-454 | clear() on three untouched files raises KeyError |
| CoreFiles.ClearFixedEmpties | scrappy/core.py:452-454 | with the intended pop, clear() empties both the list and `_old` |
| CoreFiles.ClearSpec | scrappy/core.py:452-454 | clear(): every name of a snapshot popped in turn, stopping at the first exception; ClearRaisesOnThree and ClearFixedEmpties state both versions' results |
| CoreFiles.FileSystemInterface.constructor | scrappy/core.py:363-366 | the tracked list is the processed files, and each maps to None in `_old` |
| CoreFiles.FileSystemInterface.Rename | scrappy/core.py:422-425 | rename(old, new) on the object: disk and `_old` change as RenameSpec says; the list is unchanged |
| CoreFiles.FileSystemInterface.Revert | scrappy/core.py:427-433 | revert(files): each listed key (all keys of `_old` when none are listed) is renamed back in turn, stopping at the first exception |
| CoreFiles.FileSystemInterface.PopName | scrappy/core.py:442-450 | pop(name) as written, equal to PopNameSpec |
| CoreFiles.FileSystemInterface.PopNameFixed | scrappy/core.py:442-450 | pop(name) as intended, equal to PopNameFixedSpec |
| CoreFiles.FileSystemInterface.Clear | scrappy/core.py:452-454 | clear() pops each name of a snapshot of the list, in order |
| CoreFiles.FileSystemInterface.Extend | scrappy/core.py:456-461 | extend raises AssertionError, changing nothing, exactly when none of the new processed video paths is a file. Otherwise the list grows by exactly the new video paths, appended in sorted order, and `_old` is updated with each of them mapped to None, all other entries keeping their values |
| CoreFiles.FileSystemInterface.PopIndex | scrappy/core.py:443-450 | pop(i): IndexError out of range changes nothing; otherwise the element leaves the list and its `_old` entry leaves the dictionary |
| CoreFiles.Open | scrappy/core.py:359-366 | FileSystemInterface(media): AssertionError exactly when no processed file exists; otherwise the sorted video files, each mapped to None |
| CoreScrape.AboveFloor | scrappy/core.py:181 | keeps exactly the guesses whose confidence is strictly above the floor, and nothing else |
| CoreScrape.ElectPicksBest | scrappy/core.py:193-194 | IndexError exactly without votes; otherwise a name of maximal score, with the empty name read as None |
| CoreScrape.Elect | scrappy/core.py:193-194 | the name under the highest key of `ranked`, None for the empty name, IndexError without names; ElectPicksBest and ElectOnKept state that it is a maximal name |
| CoreScrape.GuessSeriesNameOutcomes | scrappy/core.py:178-198 | None without guesses; IndexError when every guess is at or below the floor; KeyError for a kept guess without a series; otherwise the election |
| CoreScrape.Candidates | scrappy/core.py:178 | the file-name guesses that carry a series, or else the metadata guesses; GuessSeriesNameOutcomes states the outcomes over them |
| CoreScrape.GuessSeriesNameSpec | scrappy/core.py:173-198 | _guess_series_name; GuessSeriesNameOutcomes states each of its outcomes with its condition |
| CoreScrape.ElectOnKept | scrappy/core.py:181-194 | the name chosen is a kept guess's normalized name, and no kept guess's name scores higher |
| CoreScrape.LowConfidenceIgnored | scrappy/core.py:181 | adding a guess at or below the floor changes nothing |
| CoreScrape.Tally | scrappy/core.py:184-190 | the loop fills the count and highest-confidence dictionaries for the kept guesses, or raises KeyError exactly when one has no series |
| CoreScrape.HighestKey | scrappy/core.py:194 | `sorted(keys, reverse=True)[0]` is the largest key; None when there is none |
| CoreScrape.Rank | scrappy/core.py:193-194 | the ranking over complete tallies gives the election's result |
| CoreScrape.TopIsMaxScore | scrappy/core.py:193-194 | the first of the reverse-sorted keys is the highest score, and the ranking has a name under it |
| CoreScrape.GuessSeriesName | scrappy/core.py:173-198 | _guess_series_name equals its specification over the two guess lists |
| CoreScrape.EpisodeInfoFindsGuessedEpisode | scrappy/core.py:263-275 | a file gets an episode exactly when the series has the guessed season and episode, and it is that episode |
| CoreScrape.EpisodeInfoOutcomes | scrappy/core.py:263-275 | _get_episode_info: AttributeError exactly without a series; KeyError exactly for a missing season or episode number; None exactly when the season or episode is absent |
| CoreScrape.EpisodeInfo | scrappy/core.py:263-275 | _get_episode_info; EpisodeInfoOutcomes and EpisodeInfoFindsGuessedEpisode state when it raises, gives None or finds an episode |
| CoreScrape.BuildFileMap | scrappy/core.py:253 | the file map holds exactly the files, each with its episode info; it fails exactly when some lookup raises |
| CoreScrape.TargetKeepsDirectoryAndExtension | scrappy/core.py:284-285 | the new name is in the file's directory and reads formatter(ep) + '.' + the old extension |
| CoreScrape.Target | scrappy/core.py:284-285 | the new name of a mapped file; TargetKeepsDirectoryAndExtension states that it keeps the directory and the extension |
| CoreScrape.RenameFilesTouchesOnlyMapped | scrappy/core.py:281-287 | a name that is neither a mapped file nor its target is on the disk after rename_files exactly when it was before |
| CoreScrape.RenameFilesWithoutMappedFiles | scrappy/core.py:281-289 | with no mapped file, rename_files changes nothing and prints nothing |
| CoreScrape.RenameFilesIsNotAtomic | scrappy/core.py:277-287 | with two mapped files whose second target is another file already on the disk, rename_files raises OSError and leaves the first file renamed |
| CoreScrape.RenameFilesSpec | scrappy/core.py:280-287 | rename_files: the tracked files renamed in turn, stopping at the first exception with nothing undone; the RenameFiles lemmas state what it touches and that it is not atomic |
| CoreScrape.PreviewSpec | scrappy/core.py:281-289 | rename_files(test=True): the names it prints, up to a file without an entry; RenameFilesWithoutMappedFiles states that it prints nothing without a mapped file |
| CoreScrape.Scrape.constructor | scrappy/core.py:112-136 | the attribute assignments of __init__: every tracked file maps to None, no series, and the id and name NewScrape passes |
| CoreScrape.Scrape.MapEpisodeInfo | scrappy/core.py:230-261 | AssertionError without an id or a name, changing nothing. Otherwise `series` becomes the lookup result (kept when the show is not found), and the call succeeds exactly when every file's episode info succeeds and a series exists wherever the id or the name must be filled in. A failed episode lookup returns its error with the file map, id and name unchanged; AttributeError comes after the new file map is stored. On success the file map is rebuilt and the id and the lower-cased series name fill in whichever was missing |
| CoreScrape.Scrape.RenameFiles | scrappy/core.py:277-289 | test mode returns the printed names and renames nothing; otherwise the renames go through the file-set bookkeeping as RenameFilesSpec says |
| CoreScrape.NewScrape | scrappy/core.py:112-141 | Scrape(media, tvdbid, confidence): the file set's AssertionError first; with an id, no series name; without one, the guess of _guess_series_name, whose IndexError or KeyError escapes. The new object tracks exactly the processed files, sorted, each mapped to None |
| CoreQuery.LanguageFilter | scrappy/core.py:317-319 | keeps exactly the shows in the language (all for None) |
| CoreQuery.LanguageFilterKeepsOrder | scrappy/core.py:317-319 | the filter distributes over concatenation, so order is kept |
| CoreQuery.LanguageFilterNone | scrappy/core.py:317-319 | without a language every show is kept, in order |
| CoreQuery.Speaks | scrappy/core.py:319 | the show is in the language, or no language is set; LanguageFilter keeps exactly such shows |
| CoreQuery.Popularity | scrappy/core.py:349-355 | `1 - rating/ratingcount` clamped below at 0; ZeroDivisionError exactly for ratingcount 0 |
| CoreQuery.PopContest | scrappy/core.py:342-347 | _pop_contest returns one of its two arguments, the less popular one |
| CoreQuery.ContestPicksFirstLeastPopular | scrappy/core.py:336 | the reduce returns the least popular show, the earliest among equals |
| CoreQuery.Contest | scrappy/core.py:336 | reduce(_pop_contest, popularity); ContestPicksFirstLeastPopular states that it is the earliest least popular show |
| CoreQuery.InBucket | scrappy/core.py:330 | `highmatch` holds exactly the shows of the given bucket |
| CoreQuery.HighestBucket | scrappy/core.py:325-329 | max(set(match)) is a bucket of some show and no show's bucket exceeds it; ValueError for no shows |
| CoreQuery.LowestBucket | scrappy/core.py:322-329 | the smallest difference bucket, the evident intent of comp_fn |
| CoreQuery.Popularities | scrappy/core.py:335 | every popularity is computed; ZeroDivisionError exactly when some show is unrated |
| CoreQuery.DecideOutcome | scrappy/core.py:332-336 | a lone show is returned directly; of several, the least popular and earliest, unless one is unrated |
| CoreQuery.Decide | scrappy/core.py:332-336 | a lone show of the bucket directly, several through the popularity contest; DecideOutcome states its result |
| CoreQuery.PopularityFilterOutcome | scrappy/core.py:321-336 | ValueError exactly for no shows; otherwise a show of the HIGHEST bucket, decided by popularity |
| CoreQuery.PopularityFilterClosestOutcome | scrappy/core.py:321-336 | the corrected filter returns a show of the lowest (closest) bucket |
| CoreQuery.PopularityFilter | scrappy/core.py:321-336 | popularity_filter as written; PopularityFilterOutcome and PopularityFilterPrefersWorstMatch state that it keeps the highest bucket |
| CoreQuery.PopularityFilterClosest | scrappy/core.py:321-336 | popularity_filter keeping the lowest bucket; PopularityFilterClosestOutcome states its result |
| CoreQuery.PopularityFilterPrefersWorstMatch | scrappy/core.py:322-333 | an exact-name show (bucket 0) loses to a totally different one (bucket 200) |
| CoreQuery.SelectSeriesOutcome | scrappy/core.py:308-315 | selectSeries returns a show in the language, a lone such show directly, and ValueError when none speaks it |
| CoreQuery.SelectSeries | scrappy/core.py:308-315 | selectSeries; SelectSeriesOutcome states that it returns a show in the language, or ValueError when none speaks it |
| EpisodeMatch.RecordExtension | scrappy/scrape.py:148 | the record's ext is the text after the file name's last '.' |
| EpisodeMatch.RecordOf | scrappy/scrape.py:143-149 | the dictionary stored for a matched file; RecordExtension states its extension field |
| EpisodeMatch.Compare | scrappy/scrape.py:141-142 | the nested comparisons raise only KeyError (the guess lacks a number) or ValueError (int() of the node text) |
| EpisodeMatch.MatchesMeans | scrappy/scrape.py:141-142 | a node matches exactly when both guessed numbers equal int() of the node's texts |
| EpisodeMatch.Matches | scrappy/scrape.py:141-142 | the guess names the node; MatchesMeans states that both numbers equal int() of its texts |
| EpisodeMatch.ScanWithFindsNothing | scrappy.py:234-243 | a completed scan finds nothing exactly when no node compares equal |
| EpisodeMatch.ScanWithKeepsLastMatch | scrappy.py:234-243 | a completed scan keeps the record of the last node that compares equal |
| EpisodeMatch.ScanWith | scrappy.py:234-243 | the inner loop for any comparison; ScanWithFindsNothing, ScanWithKeepsLastMatch and ScanWithStopsAtRaise state its result |
| EpisodeMatch.ScanKeepsLastMatch | scrappy/scrape.py:140-149 | the scan does not stop at a match: the last matching episode wins; nothing exactly when none matches |
| EpisodeMatch.ScanRaises | scrappy/scrape.py:140-142 | no nodes means no error; a guess without a season raises KeyError; a guess with both numbers against integer nodes raises nothing |
| EpisodeMatch.Scan | scrappy/scrape.py:140-149 | the inner loop for one file; ScanKeepsLastMatch and ScanRaises state its match and its exceptions |
| EpisodeMatch.MapFilesEntries | scrappy/scrape.py:138-149 | a completed mapping gives each file its last matching record, leaves unmatched files as they were, and touches no other entry |
| EpisodeMatch.MapFilesStopsAtRaise | scrappy.py:231-243 | once a file's scan raises, the later files change nothing |
| EpisodeMatch.MapFiles | scrappy/scrape.py:138-149 | the loop over the files; MapFilesEntries and MapFilesStopsAtRaise state the file map it leaves |
| EpisodeMatch.ScanWithStopsAtRaise | scrappy.py:234-236 | once a comparison raises, the later nodes change nothing |
| Rollback.RunMovesAgrees | scrappy.py:261 | running renames one after another completes exactly when they all succeed; a failure is OSError |
| Rollback.RunMoves | scrappy.py:261 | renames one after another, OSError at the first failure; RunMovesAgrees and RunMovesLeaves state its result |
| Rollback.UndoMoves | scrappy.py:264-265 | `for key in old_: rename(key, old_[key])` in key order |
| Rollback.RecordedInOrder | scrappy.py:262 | renames to distinct names are recorded in order, new name to old |
| Rollback.RecordedUndo | scrappy.py:264-265 | undoing such a record in key order is the inverse of the renames, in the same order |
| Rollback.Recorded | scrappy.py:262 | old_ after renames, each new name mapped to the old one; RecordedInOrder and RecordedUndo state its keys and its undo |
| Rollback.RenameAllSucceeds | scrappy.py:252-267 | True means every planned rename was made, one after another |
| Rollback.RenameAll | scrappy.py:252-267 | renameFiles with its key-order rollback; RenameAllSucceeds, RenameAllTouchesOnlyMapped and RenameAllRollbackRestores state its result |
| Rollback.RunMovesLeaves | scrappy.py:261 | renames that neither take nor give a name leave it alone |
| Rollback.RenameAllTouchesOnlyMapped | scrappy.py:252-267 | unmapped files (and names no rename involves) are never touched, whatever happens |
| Rollback.RenameAllRollbackRestores | scrappy.py:263-266 | with distinct new names, a completed rollback (False) restores the names from before the first rename |
| Rollback.RollbackRestores | scrappy.py:252-267 | from an empty old_, a completed rollback with distinct new names restores the disk |
| Rollback.UndoReverseRestores | scrappy.py:263-266 | undoing the renames last to first always succeeds and restores the names |
| Rollback.UndoReverse | scrappy.py:263-266 | the renames undone last to first; UndoReverseRestores states that this always succeeds and restores the names |
| Rollback.RenameAllAtomicIsAtomic | scrappy.py:245-267 | the corrected loop renames every planned file (True) or restores the names exactly (False); it raises only when the plan itself fails |
| Rollback.RenameAllAtomic | scrappy.py:252-267 | renameFiles with a last-to-first rollback; RenameAllAtomicIsAtomic states that it is all-or-nothing |
| Rollback.RollbackInKeyOrderFails | scrappy.py:263-266 | renames b→c, a→b, then a failure: undoing in key order tries c→b onto a taken name, so OSError escapes with {b, c}; last-to-first undo restores {a, b} |
| LegacyText.StripTags | scrappy.py:26-43 | the in-place popping loops compute StripTagsSpec |
| LegacyText.StripTagsKeepsPlainText | scrappy.py:36-42 | text without '<' comes back unchanged |
| LegacyText.StripTagsRemovesOpeners | scrappy.py:36-42 | no '<' survives |
| LegacyText.StripTagsAfterPlainText | scrappy.py:41-42 | plain text before the rest is kept, in order |
| LegacyText.StripTagsDropsTagBody | scrappy.py:38-40 | inside a tag, everything up to and including the first '>' goes |
| LegacyText.StripTagsRemovesTag | scrappy.py:36-43 | a whole `<t>` span is removed with its delimiters, and its surroundings stay in order |
| LegacyText.StripTagsFails | scrappy.py:37-39 | IndexError, and only that, exactly when some '<' has no later '>' |
| LegacyText.StripTagsSpec | scrappy.py:26-43 | stripTags without the list; the StripTags lemmas state what it keeps, what it removes and when it raises |
| LegacyText.Format | scrappy.py:269-287 | format(n, prefix): ValueError exactly for a non-integer; prefix + '0' + n below 10, prefix + n otherwise |
| LegacyText.FormatOfNumber | scrappy.py:281-287 | for n >= 0, format(n) is the prefix and zfill(2) of str(n) |
| LegacyText.FormatExample | scrappy.py:281-287 | format(3, 'S') is 'S03' |
| LegacyText.FormatOfNegative | scrappy.py:284-285 | a negative number gets its '0' before the sign, where zfill puts it after |
| LegacyText.LegacyTarget | scrappy.py:255-259 | the new name raises ValueError exactly when a season or episode text is not an integer |
| LegacyText.LegacyTargetLayout | scrappy.py:255-259 | for plain numbers the new name is Series.Sxx.Exx.Title.ext, with no directory |
| Hits.FirstExact | scrappy.py:349-353 | the first hit whose normalized name equals the wanted name, if any |
| Hits.LevdDict | scrappy.py:348-357 | every hit's distance is a key of levd_dict |
| Hits.MinDistance | scrappy.py:359 | min(levd_dict.keys()) is some hit's distance and no hit's distance is smaller |
| Hits.LevdDictKeepsLast | scrappy.py:357 | under each distance, levd_dict keeps the last hit at that distance |
| Hits.ClosestIsLastNearest | scrappy.py:359 | the fallback is a hit at minimal distance, and the last such hit |
| Hits.HitDistance | scrappy.py:355-356 | the loop's distance is levenshteinDistance of the normalized hit name and the wanted name |
| Hits.MinKey | scrappy.py:359 | min(keys) is a key and no key is smaller |
| Hits.Exact | scrappy.py:351 | name.strip().lower() == seriesname; FirstExact states that the first such hit is found |
| Hits.Dist | scrappy.py:355-356 | levenshteinDistance of the normalized hit name and the wanted name; HitDistance states what it is |
| Hits.Closest | scrappy.py:359 | levd_dict[min(levd_dict.keys())]; ClosestIsLastNearest states that it is the last hit at minimal distance |
| LegacyScrape.SeriesNameOutcome | scrappy.py:289-320 | getSeriesName gives None exactly when no vote scores above 0; otherwise a vote's name with a positive score |
| LegacyScrape.SeriesNameIsGuessed | scrappy.py:289-320 | the name returned is the normalized series name of one of the guesses |
| LegacyScrape.SeriesNameSpec | scrappy.py:289-320 | getSeriesName; SeriesNameOutcome and SeriesNameIsGuessed state when it is None and that its name is a guess's |
| LegacyScrape.OlsdcoreKeepsLastPositive | scrappy.py:315-319 | foo (score 1.8) loses to bar (score 0.95) because bar comes last; the second revision's loop picks foo |
| LegacyScrape.RankLastPositive | scrappy.py:313-319 | the ranking loop as written computes LastPositive over the tally order |
| LegacyScrape.ChosenId | scrappy.py:328-360 | no hits give None; a single hit is accepted exactly within the threshold; several always give an id |
| LegacyScrape.TvdbIdSpec | scrappy.py:189-190 | without a series name querySeriesName raises AttributeError, and only then |
| LegacyScrape.ChosenIdFirstExact | scrappy.py:349-353 | of several hits, the first exact normalized-name match wins |
| LegacyScrape.ChosenIdNearest | scrappy.py:354-359 | with no exact match, a hit at minimal distance wins, the last among equals |
| LegacyScrape.MultiHitId | scrappy.py:348-360 | the loop over several hits returns the first exact hit's id, or else the id of the hit under the smallest key |
| LegacyScrape.Scrape.constructor | scrappy.py:175-179 | every file maps to None; old_ is empty; the name and the id are the given ones |
| LegacyScrape.NewScrape | scrappy.py:168-181 | AttributeError exactly for an empty file list; otherwise the new object |
| LegacyScrape.Scrape.GetSeriesName | scrappy.py:289-320 | the tally-and-rank loop returns SeriesNameSpec of the file guesses |
| LegacyScrape.Scrape.GetTVDBid | scrappy.py:322-360 | getTVDBid returns TvdbIdSpec; on success it sets id to the result, otherwise leaves it |
| LegacyScrape.Scrape.ScanEpisodes | scrappy.py:234-243 | the inner loop stores each match for the file at once, ending as ScanWith says |
| LegacyScrape.Scrape.MapSeriesInfo | scrappy.py:223-243 | AttributeError without a series record; otherwise the file map becomes MapFiles of the old one |
| LegacyScrape.Scrape.RenameFiles | scrappy.py:245-267 | the disk and old_ end as RenameAll with the first revision's new names says |
| LegacyScrape.Scrape.RenameWith | scrappy.py:252-267 | the rename-and-rollback loop equals RenameAll for any name computation |
| SeriesScrape.BestNameIsFirstMaximum | scrappy/scrape.py:96-129 | the name stored has maximal count × highest confidence, and every name tallied before it scores strictly less; None only when no score is positive |
| SeriesScrape.BestNameIsGuessed | scrappy/scrape.py:96-129 | the name stored is the normalized series name of one of the guesses |
| SeriesScrape.BestName | scrappy/scrape.py:107-127 | the name the last ranking turn picks; BestNameIsFirstMaximum and BestNameIsGuessed state that it is the first maximal guessed name |
| SeriesScrape.RankFirstBest | scrappy/scrape.py:122-127 | the ranking loop as written computes FirstBest over the tally order |
| SeriesScrape.Elect | scrappy/scrape.py:107-127 | the tally loop, with a ranking after each guess, ends with FirstBest over all votes |
| SeriesScrape.FlattenPlainFiles | scrappy/scrape.py:79-85 | a list of plain files is kept as it is |
| SeriesScrape.FlattenSkipsMissing | scrappy/scrape.py:79-85 | an item that is neither a directory nor a file adds nothing |
| SeriesScrape.FlattenSnoc | scrappy/scrape.py:80-85 | one more media item appends its expansion to the files collected so far |
| SeriesScrape.JoinEntries | scrappy/scrape.py:93-94 | listdir_fullpath(d): each entry of the directory joined to it, in listing order |
| SeriesScrape.Expand | scrappy/scrape.py:81-85 | one media item: a directory's entries joined to it, a file itself, anything else nothing; FlattenPlainFiles and FlattenSkipsMissing state the last two |
| SeriesScrape.Flatten | scrappy/scrape.py:79-85 | the items expanded in order; FlattenSnoc and CollectFiles state that the loop builds it |
| SeriesScrape.CollectFiles | scrappy/scrape.py:79-85 | the flattening loop collects exactly Flatten(media): each directory's entries, each file itself, nothing for anything else |
| SeriesScrape.AllFiles | scrappy/scrape.py:87 | the file check is true exactly when every collected path is a file |
| SeriesScrape.OpenSeries | scrappy/scrape.py:73-90 | Series(media): AssertionError exactly when the flattened list is empty or holds a non-file; otherwise the new object over that list |
| SeriesScrape.Series.constructor | scrappy/scrape.py:88-90 | every file maps to None and there is no series name yet |
| SeriesScrape.Series.GetSeriesName | scrappy/scrape.py:96-129 | seriesname becomes BestName of the guesses, and is left alone without a guess that carries a series |
| SeriesScrape.Series.ScanEpisodes | scrappy/scrape.py:140-149 | the inner loop stores each match for the file at once |
| SeriesScrape.Series.MapSeriesInfo | scrappy/scrape.py:131-149 | AssertionError without a series record; otherwise the file map becomes MapFiles, guessing from the name without its directory |
| SeriesScrape.SeriesTargetLayout | scrappy/scrape.py:163-168 | the new name is in the file's own directory and reads Series.Name.Sxx.Exx.Episode.Name.ext, with ext after its last '.' |
| SeriesScrape.SeriesTarget | scrappy/scrape.py:163-168 | the new name of a mapped file; SeriesTargetLayout states its directory and layout |
| SeriesScrape.RenameFirstAtMostOne | scrappy/scrape.py:158-177 | at most one file is renamed. True means the first mapped file was renamed and recorded; otherwise the disk is unchanged. None exactly when no file is mapped |
| SeriesScrape.RenameFirstRaises | scrappy/scrape.py:161-162 | the loop raises only KeyError, for a file missing from the map |
| SeriesScrape.ReturnInFinallyRenamesOne | scrappy/scrape.py:169-177 | with two renamable mapped files, True is returned while the second keeps its old name |
| SeriesScrape.RenameFirst | scrappy/scrape.py:158-177 | renameFiles with its return in the finally clause; RenameFirstAtMostOne, RenameFirstRaises and ReturnInFinallyRenamesOne state that it renames at most one file |
| SeriesScrape.Series.RenameFiles | scrappy/scrape.py:151-177 | the disk and old_ end as RenameFirst with the second revision's new names says |
| SeriesScrape.Series.RenameWith | scrappy/scrape.py:158-177 | the loop ends at the first mapped file; the except clause's undo runs over an empty old_ |
| SeriesScrape.PickAsWritten | scrappy/scrape.py:259-288 | raises exactly when there are several hits and none matches exactly, always TypeError; otherwise the first revision's choice |
| SeriesScrape.TvdbIdAsWritten | scrappy/scrape.py:255-258 | without a series name, `seriesname.strip()` raises AttributeError |
| SeriesScrape.NoExactMatchRaises | scrappy/scrape.py:288 | several hits with no exact match raise TypeError, where the first revision takes the nearest hit |
| SeriesScrape.ScanHits | scrappy/scrape.py:277-288 | the loop returns the first exact hit's id; otherwise it ends in TypeError |
| SeriesScrape.Scrape.constructor | scrappy/scrape.py:192 | the id is the given one |
| SeriesScrape.Scrape.GetTVDBid | scrappy/scrape.py:255-288 | getTVDBid returns TvdbIdAsWritten; on success it sets id to the result, otherwise leaves it |

## Left out

- The remote database (tvdb_api, urllib, requests, zip download) is left out. The search hits, the show lookup and the series record are parameters. So are the guessit guesses, the mimetype check, the directory walk and listing, `glob` and `os.path.isfile`.
- XML parsing is left out. The text of a node, which `stripTags(node.toxml())` or BeautifulSoup's `.string` yields, is given as a string. `stripTags` is modelled on its own.
- getLanguages, checkLanguageSettings, querySeriesName's HTTP request, urlretrieve and getSeriesInfo are network code and are left out. The AttributeError and AssertionError guards of querySeriesName are kept.
- The curses user interface, the Scrappy facade's autoScrape glue, the `_guess_from_metadata` hachoir extraction and `print` output are left out. Test-mode printing is modelled as a returned list of names.
- `_rounded` is left out because it is float rounding. The similarity bucket of a show is a given integer. Confidences and popularities are reals.
- `_popularity` models Python's float division by exact real division.
- CoreQuery.Popularity: takes `rating` and `ratingcount` of the show record (scrappy/core.py:352) as numbers already converted. The ValueError or TypeError that `float()` and `int()` raise on empty, non-numeric or missing fields is not modelled, so Popularity and Popularities state ZeroDivisionError as their only error.
- CoreQuery.Popularities: for the same reason its "exactly when some show is unrated" leaves out the conversion errors of the fields.
- Case mapping, title-casing and whitespace cover ASCII only. Unicode decoding (chardet, `unicodeFilename`) and `.encode('ascii')` of the id are not modelled.
- Dictionary iteration order is taken to be insertion order. Python 2 gives no such guarantee. The legacy ranking loop and the rollback depend on it.
- os.rename fails when the source is missing or the target is another existing name. It is modelled on a set of names. Renaming a name to itself succeeds and changes nothing, as on POSIX. A POSIX rename that silently overwrites a different target is not modelled.
- FileSystemInterface.add is left out. `sorted(self._files.append(new))` sorts None and always raises TypeError.
- The `formatter` parameter of scrappy/core.py's Scrape is a function parameter. Its default, `formatters.formatter_default`, does not exist in scrappy/formatters.py. The `default` layout table is modelled on its own.
- scrappy/scrape.py:189 puts a defaulted parameter before a plain one, which is a syntax error. SeriesScrape.Scrape.constructor keeps only the id assignment, and the language check is left out.
- SeriesScrape.OpenSeries, LegacyScrape.NewScrape and CoreFiles.FileSystemInterface.Revert take their names as a list. The case of a single name wrapped into a one-element list or tuple (scrappy/core.py:429-430) is not modelled.
- CoreScrape.NewScrape does not model the tvdb and QueryGrabber set-up. It takes the id as an integer, so the `int(tvdbid.strip())` check of a string id (scrappy/core.py:130-132), which raises ValueError for a non-numeric string and otherwise is discarded, is not modelled. The two guess lists are parameters, like the guessers.
- CoreScrape.Scrape.MapEpisodeInfo and CoreScrape.NewScrape treat the id as present exactly when it is `Some`. The source tests `self.id` by truthiness, so an id of 0 counts as missing there; tvdb ids are positive.
- The `files` and `language` properties, `__repr__` and `__iter__` are plain accessors and are left out.
- LegacyScrape.MultiHitId and SeriesScrape.ScanHits take the distance as a function of the hit. The objects' GetTVDBid methods pass the series name's distance, which Hits.HitDistance computes with LevenshteinDistance.
- EditDistance.LevenshteinDistance is one member for the three identical copies in scrappy/core.py, scrappy.py and scrappy/scrape.py.
- EditDistance.LevenshteinDistance writes out the self-call made when the first string is the shorter (normalize the swapped strings again, then fill the table) instead of calling itself; NormalizedSwap proves that this gives the distance the call computes.

## Findings

| source | as written | input that shows it | evidently intended | confidence | as-written member | corrected member |
|---|---|---|---|---|---|---|
| scrappy/core.py:67-68 | compare_strings divides the distance by the mean of the raw lengths | `compare_strings("a", "")` is 2.0 | a difference coefficient between 0 and 1, as the docstring says | not executed | EditDistance.CompareStringsExceedsOne | EditDistance.DifferenceCoefficientInRange |
| scrappy/core.py:442-450 | pop(name) keeps counting after it pops the match, then pops `_old` under the last name visited | pop("a") on [a, b, c] removes c's entry; clear() on three files raises KeyError | remove the name from both the list and `_old` | not executed | CoreFiles.PopNamePopsWrongKey | CoreFiles.ClearFixedEmpties |
| scrappy/core.py:329-330 | popularity_filter keeps the shows with the highest comp_fn difference | an exact-name show (bucket 0) loses to a totally different one (bucket 200) | keep the closest shows, the lowest difference | not executed | CoreQuery.PopularityFilterPrefersWorstMatch | CoreQuery.PopularityFilterClosestOutcome |
| scrappy.py:315-319 | the score is assigned to a misspelled `olsdcore`, so `oldscore` stays 0.0 | votes foo 0.9, foo 0.8, bar 0.95 pick bar (0.95) over foo (1.8) | the name of highest score, as scrappy/scrape.py:124-127 computes | not executed | LegacyScrape.OlsdcoreKeepsLastPositive | Votes.FirstBestIsFirstMaximum |
| scrappy/core.py:277-289 | rename_files, documented as atomic, has no rollback: the first OSError escapes with the earlier renames in place | two mapped files, the second target already taken: OSError with the first file renamed | rename every mapped file atomically | not executed | CoreScrape.RenameFilesIsNotAtomic | Rollback.RenameAllAtomicIsAtomic |
| scrappy/scrape.py:169-177 | `return success` in a `finally` clause inside the loop ends renameFiles after the first mapped file | two renamable mapped files: True is returned and the second is not renamed | rename every mapped file atomically | not executed | SeriesScrape.ReturnInFinallyRenamesOne | Rollback.RenameAllAtomicIsAtomic |
| scrappy.py:263-266 | the rollback renames back in old_'s key order (insertion order) | files b→c, a→b, then d fails: undoing c→b hits the taken name b, and OSError leaves {b, c}. This outcome depends on the modelled rename refusing a taken target; on POSIX the undo c→b overwrites b instead, losing a file without an error | undo last to first, which restores the names | not executed | Rollback.RollbackInKeyOrderFails | Rollback.UndoReverseRestores |
| scrappy/scrape.py:288 | `min(levd_dict.keys)` is applied to the method, not to its result | two hits, neither an exact match: TypeError | take the hit at the smallest distance, as scrappy.py:359 does | not executed | SeriesScrape.NoExactMatchRaises | LegacyScrape.ChosenIdNearest |
