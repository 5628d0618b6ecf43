# Duplicate-file finder: a Dafny model of the `Scan` pipeline

The program lists the files of one folder and hashes each one (MD5). It
then groups the files whose checksums are equal. For every group it asks
the user which file to keep, and it reports the rest for removal. This
project models the part of `main.py` that does that work: the `Scan`
object's `check_duplicates`, `mark_to_keep`, `delete` and
`file_to_be_deleted_list`, and the order in which `main` calls them.

A file is an opaque `(path, checksum)` record (`Files.File`). The checksum
is a string, compared only for equality.

Python's `dict` keeps insertion order. It is modelled as an association
list `seq<Group>` whose keys are distinct, in the order they were first
inserted (`Grouping.Groups`).

## Modules

- `results.dfy` (`Results`): `Option` and `Result`.
- `seqs.dfy` (`Seqs`): sequence helpers.
  - `Init` and `Last`.
  - `RemoveAt`, which is Python's `del s[i]`, and its inverse `InsertAt`.
  - `Select`, which picks positions by a boolean mask, and `IsSubsequence`.
- `files.dfy` (`Files`): the file record, its paths and checksums, and
  distinct paths.
- `grouping.dfy` (`Grouping`): `check_duplicates`.
  - One dictionary update (`Add`) and the loop built from it (`Accumulate`).
  - The `len(v) > 1` filter (`KeepShared`).
  - Reference definitions stated on `file_list` alone (`WithChecksum`,
    `Shared`, `SharedIn`, `FirstIndex`), and the lemmas that tie the grouping
    to them.
- `keeping.dfy` (`Keeping`): `mark_to_keep`, with Python's list-index rules
  for `del v[int(choice)]`.
- `deleting.dfy` (`Deleting`): `delete` and `file_to_be_deleted_list`.
- `scanning.dfy` (`Scanning`): the `Scan` record, the `main` pipeline and
  the repository's test directory.

The console is replaced by a sequence of answers, one per group, already
read as integers. `os.path.exists` is replaced by the set of paths that
exist. `os.remove` is commented out in the source, so `delete` never
changes the file system: it only reports, as "Removing", the paths it
would remove. The model returns that report as a sequence of paths.

## Model

| member | source | states |
|---|---|---|
| `Grouping.Get` | main.py:38 | `d.get(k)` is present exactly when `k` is a key, and then it is the list filed under `k` |
| `Grouping.Add` | main.py:38 | One update `d[c] = d.get(c, []) + [f]` keeps the keys distinct. An existing key keeps its place and its list gains `f` at the end. A new key goes last with `[f]`. Every other entry is unchanged |
| `Grouping.AddGet` | main.py:38 | After the update, `d.get(f.checksum)` is the old `d.get(f.checksum, [])` followed by `f` |
| `Grouping.Accumulate` | main.py:36-38 | The loop, started from `{}`, yields a dictionary with distinct keys; its contents and key order are stated by the three `Accumulate…` lemmas below |
| `Grouping.KeepShared` | main.py:40 | The comprehension keeps an entry exactly when its list has more than one file |
| `Grouping.KeepSharedSelects` | main.py:40 | The comprehension keeps the surviving entries in their order: its result is the subsequence of the entries holding more than one file |
| `Grouping.CheckDuplicates` | main.py:35-40 | The keys are distinct, every group holds at least two files, and every file carries its group's checksum |
| `Grouping.AccumulateKeys` | main.py:36-38 | After the loop, a checksum is a key exactly when some listed file carries it |
| `Grouping.AccumulateFiled` | main.py:36-38 | After the loop, each key holds exactly the listed files with that checksum, in listing order |
| `Grouping.AccumulateOrder` | main.py:36-38 | After the loop, the keys are ordered by where their checksum first occurs in the listing |
| `Grouping.CheckDuplicatesSpec` | main.py:35-40 | Each group holds exactly the listed files with its checksum. A checksum is a key exactly when two or more listed files carry it. Keys follow first-occurrence order |
| `Grouping.GetCheckDuplicates` | main.py:35-40 | `duplicates.get(k)` is the list of files with checksum `k` when `k` is shared, and absent otherwise |
| `Grouping.GroupedIffOtherShares` | main.py:35-40 | A listed file is grouped exactly when another entry of the listing has its checksum |
| `Grouping.CheckDuplicatesPartition` | main.py:35-40 | The grouped files are a rearrangement of the listing's entries whose checksum is shared: each such entry occurs as often as in the listing, and no other file occurs. The group sizes add up to the number of those entries |
| `Grouping.MembersInFileOrder` | main.py:37-38 | Every group is a subsequence of the listing |
| `Grouping.CheckDuplicatesRegroup` | main.py:35-40 | Grouping the files of the groups again gives back the same groups, in the same order, with the same members |
| `Keeping.ListIndex` | main.py:49 | `del v[c]` names a position exactly when `-len <= c < len`; the position is `c mod len` |
| `Keeping.MarkToKeep` | main.py:42-49 | The run completes exactly when every group gets an answer that indexes it. The keys and their order are then unchanged, and each group has lost exactly the file at its chosen position |
| `Keeping.MarkToKeepStopsAtFirstBadAnswer` | main.py:48-49 | The first group whose answer is missing or out of range stops the run: a missing answer is `NoChoice` (EOF on `input`), and an out-of-range one is `IndexOutOfRange` (`IndexError`) for that group and answer |
| `Keeping.MarkToKeepReadsOneAnswerPerGroup` | main.py:43-48 | Exactly one answer is read per group; answers beyond the number of groups are not looked at |
| `Keeping.MarkToKeepPartition` | main.py:42-49 | The files left in the groups plus the kept files are the files the groups held before; one file per group leaves the groups |
| `Keeping.KeptNotCandidate` | main.py:49 | In a group without repeated files, the kept file is no longer in its group |
| `Seqs.RemoveAt` | main.py:49 | `del s[i]` keeps the elements before `i`, shifts the later ones down by one, and drops exactly one copy of `s[i]` |
| `Seqs.InsertUndoesRemove` | main.py:49 | Putting the removed element back at its position restores the list |
| `Deleting.Delete` | main.py:51-56 | `delete` walks the groups in key order and each group's files in order. It reports the path of every file whose path exists, in the order of the to-be-deleted list |
| `Grouping.Flatten` | main.py:63-67 | The files `file_to_be_deleted_list` walks, group after group; what it holds is stated by `Deleting.FlattenMembers` and `Grouping.FlattenCount` |
| `Grouping.FlattenCount` | main.py:63-67 | When each group holds exactly the listed files with its checksum, a file occurs in the walk as often as in the listing if its checksum is a key, and never otherwise |
| `Deleting.FlattenMembers` | main.py:63-67 | A file is on the to-be-deleted list exactly when some group holds it |
| `Deleting.DeleteReportIsSubsequence` | main.py:51-56 | The removal report is a subsequence of the paths on the to-be-deleted list |
| `Deleting.DeleteReportsExactly` | main.py:53-55 | A path is reported exactly when it exists and some remaining group member has it |
| `Scanning.NewScan` | main.py:26-30 | A new scan holds the listed files and an empty dictionary |
| `Scanning.ScanCheckDuplicates` | main.py:35-40 | `check_duplicates` leaves `file_list` as it is and replaces `duplicates`, whatever it held, with the duplicate groups of `file_list`: distinct keys, two or more files per group, a checksum a key exactly when two or more listed files carry it, each group those files in listing order, keys in first-occurrence order |
| `Scanning.CheckDuplicatesIdempotent` | main.py:35-40 | Calling `check_duplicates` twice gives the same scan as calling it once |
| `Scanning.CheckDuplicatesForgetsPrevious` | main.py:36 | The result does not depend on what `duplicates` held before |
| `Scanning.ScanMarkToKeep` | main.py:42-49 | On a scan, `mark_to_keep` completes exactly when every answer is valid; it keeps `file_list` and the keys, and each group loses exactly the file at its chosen position |
| `Scanning.Run` | main.py:14-22 | `main` completes exactly when every duplicate group gets a valid answer. It then reports, in walk order, the path of every file left in a group whose path exists, and so only paths that exist. When no path is listed twice, it never reports the path of a kept file |
| `Scanning.CandidatesAfterKeep` | main.py:42-49 | After `mark_to_keep`, the files left for deletion plus the kept files are the listing's entries whose checksum is shared. Their number is that count less the number of groups, and no group is left empty |
| `Scanning.KeptNeverReported` | main.py:51-56 | With distinct paths, no kept file's path is in the removal report |
| `Scanning.FixtureCheckDuplicates` | tests/test_scan.py:29-32 | On the test directory the dictionary starts empty, and `check_duplicates` finds exactly one group: the two text copies |
| `Scanning.FixtureKeep` | tests/test_scan.py:34-40 | Answering 0 on the test directory leaves one file, `text.txt`, in the one group |
| `Scanning.FixtureDelete` | main.py:51-56 | With every test file present, `delete` then reports exactly `text.txt` |

## Left out

- Listing and hashing (`Scan._scan`, `File.__init__`, main.py:32-33 and 69-80). These read the file system and compute MD5 digests. The listing is a parameter, and a checksum is an opaque string. Name, extension and size are used only for display, in each group's listing through `File.__repr__` (main.py:46 and 82-83); display is left out, so they are not modelled.
- The order of `iterdir` depends on the file system. The test-directory lemmas assume the order in which the test's fixture dictionary lists the files (`image.jpg`, `text_copy.txt`, `text_different.txt`, `text.txt`). Under that order, `test_mark_to_keep`'s expectation that `text.txt` remains after answer 0 holds.
- Argument parsing (`parse`, main.py:6-12): it only yields the folder, which the listing replaces.
- Console output: the prompts of `mark_to_keep`, `file_full_list` (main.py:58-61), `File.__repr__`, and the "Removing" lines, which are modelled as the returned list of paths. `file_to_be_deleted_list` is modelled by the sequence it prints (`Grouping.Flatten`).
- `int(choice)` raising `ValueError` on a non-numeric answer: answers are given already as integers.
- `Scanning.Run`: an exception stops `main` at the first bad answer, and the modelled result is that error. The partly modified dictionary left behind is not returned.
- Recursive scanning, dry runs, a confirmation prompt before deleting, and re-asking after a bad answer. The tests exercise the first three, and call a three-argument `Scan(path, recursive, dry_run)`. `main.py` has none of them and takes one argument. The model follows `main.py`.
- Actual removal: `os.remove` is commented out at main.py:56.
