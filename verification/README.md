# FlyEM substack flattening tools — a Dafny model

Two command-line tools prepare and launch the "flattening" of a slab of the
FlyEM alignment on only part of its slices:

- `prepare_substack_dir.py` creates a *substack* directory for slab
  `Sec<NN>`. It names the substack (`substack-Sec02-z10000-z10100` by default),
  writes its parameter record `substack-params.json`, and fills
  `input_slices/` with links to (or copies of) the slices `start … stop-1` of the
  slab. The slices are renumbered `00000<ext>`, `00001<ext>`, … The index of an
  input slice is the first run of digits in its file name. A later file with the
  same index replaces an earlier one, and the run stops at the first slice of the
  range that is missing.
- `launch_flatten.py` reads the record back and checks that it belongs to the
  directory given on the command line and that `flatten/flattenParams.sh`
  exists there. It then builds the `bsub` argument list for the LSF cluster
  job, optionally with the three e-mail notification flags, and joins it twice:
  once for display, one argument per line, and once with single spaces for the
  shell.

The model has five modules:

| file | module | contents |
|---|---|---|
| `wrappers.dfy` | `Wrappers` | `Option` and `Result` |
| `decimal.dfy` | `Decimal` | `str(n)`, the format `{n:0Wd}` (the sign counts towards the width), and `int()` of the first digit run `(\d+)` finds |
| `posix_path.dfy` | `PosixPath` | `os.path.basename`, and the extension half of `os.path.splitext` (a leading dot does not start an extension) |
| `prepare_substack_dir.dfy` | `PrepareSubstackDir` | names, paths and the parameter record; the slice filter; the index map (`BuildIndex`, a loop that updates a map); the renumbering loop (`Renumber`); the whole run (`Prepare`) |
| `launch_flatten.dfy` | `LaunchFlatten` | reading and checking the record; the `bsub` list built by appending (`BuildBsubArgs`); the two joins; the whole launch (`Launch`) |

The environment is passed in as parameters:

- `resolve` stands for `os.path.abspath`.
- `listDir` stands for `glob.glob(dir + "/*")`.
- `readJson` stands for opening and decoding `substack-params.json`. It gives None when that fails.
- `pathExists` stands for `os.path.exists` (true for files and directories alike).
- Two booleans stand for the existence of the cookiecutter directory and of its template.
- A third boolean, `setupSucceeds`, says whether rendering the template, creating the sub-directories, dumping the record and `chmod` all complete without raising.
- `user` stands for the `USER` environment variable.

The file operations of the preparer are emitted as `CopyFile`/`Symlink` actions. `Prepare` returns them together with the parameters and the error that stopped the run. A failed run keeps what it had already done.

## Model

| member | source | states |
|---|---|---|
| Decimal.DecimalDigits | prepare_substack_dir.py:77 | `str(n)` of a natural number is a non-empty digit string. It has no leading zero unless it is "0", and it reads back as n. |
| Decimal.PadZerosShape | prepare_substack_dir.py:77 | Zero padding gives exactly `max(width, len)` characters. It ends with the digits and starts with '0's only. |
| Decimal.LeadingZerosValue | prepare_substack_dir.py:134 | `int()` ignores leading zeros. |
| Decimal.ZeroPaddedNatural | prepare_substack_dir.py:144 | For n ≥ 0, `{n:0Wd}` is all digits and has length `max(W, digits(n))`. Its digits read back as n. |
| Decimal.ZeroPaddedInjective | prepare_substack_dir.py:144 | Distinct natural numbers format to distinct strings at one width. |
| Decimal.DecimalLength | prepare_substack_dir.py:71 | A number below 10^k has at most k digits. |
| Decimal.DigitPrefix | prepare_substack_dir.py:128 | It is the longest prefix of digits: a digit prefix of the text that is followed by a non-digit or by the end. |
| Decimal.FirstDigitRunNone | prepare_substack_dir.py:130-132 | `(\d+)` finds nothing exactly when the name holds no digit. |
| Decimal.FirstDigitRunIs | prepare_substack_dir.py:128-134 | When `s[i..j]` is a maximal digit run with no digit before it, the index read is the value of exactly that run. |
| PosixPath.LastIndexOf | prepare_substack_dir.py:130 | It finds the last occurrence of a character: that character is at the position and not after it. It finds nothing iff the character is absent. |
| PosixPath.Basename | prepare_substack_dir.py:130 | A base name holds no '/'. |
| PosixPath.BasenameSuffix | prepare_substack_dir.py:130 | The base name is the suffix of the path after its last '/', or the whole path if it has none. |
| PosixPath.NameExt | prepare_substack_dir.py:123 | An extension is empty, or a '.' followed by text without '.'. |
| PosixPath.Ext | prepare_substack_dir.py:123-124 | The extension of a path also holds no '/'. |
| PosixPath.ExtSuffix | prepare_substack_dir.py:123 | The extension is a suffix of the base name, and something other than dots precedes it. |
| PosixPath.NameExtFromLastDot | prepare_substack_dir.py:123 | A base name whose last '.' follows something other than leading dots has the extension starting at that '.'. With `ExtSuffix` this fixes the extension on every name. |
| PosixPath.ExtFromLastDot | prepare_substack_dir.py:123-124 | A path whose base name has a '.' after a non-dot has the extension from its last '.', so `dir/img.0001.png` has extension ".png". |
| PosixPath.BasenameOfChild | prepare_substack_dir.py:92 | The base name of `dir + "/" + name` is `name` when `name` has no '/'. |
| PosixPath.NameExtOfStem | prepare_substack_dir.py:144 | `stem + ext` has extension `ext` when the stem has no '.' and is not all dots. |
| PosixPath.ExtOfChild | prepare_substack_dir.py:144 | A child `stem + ext` of any directory has that base name and exactly that extension. |
| PrepareSubstackDir.TabNameShape | prepare_substack_dir.py:71 | The tab name is "Sec" followed by digits that read back as the slab number. It has at least 5 characters, and exactly 5 for slabs 0–99. |
| PrepareSubstackDir.InputSliceDir | prepare_substack_dir.py:73-74 | The slices are read from the given directory, or, when none (or an empty one) is given, from `/nrs/flyem/alignment/<fly>/<region>/<tab>/zcorr`. |
| PrepareSubstackDir.DefaultSliceDirInjective | prepare_substack_dir.py:53 | Different flies, regions or slabs, with names free of '/', get different default slice directories. |
| PrepareSubstackDir.DefaultSubstackNameInjective | prepare_substack_dir.py:76-77 | Two default names of one slab are equal only for the same start and stop. |
| PrepareSubstackDir.MakeParams | prepare_substack_dir.py:76-104 | A given name is used unchanged and otherwise the default name is used. The base dir is `abspath(parent) + "/" + name`, the slice dir is `base + "/input_slices"`, and billing goes to "flyem". |
| PrepareSubstackDir.SubstackDirNames | prepare_substack_dir.py:91-93 | The base directory is named after the substack, and the slice directory is its child "input_slices". |
| PrepareSubstackDir.ParamsJson | prepare_substack_dir.py:97-104 | The record has exactly the six keys, and it stores the name, the base dir, the slice dir, the fly, the tab and the billing project unchanged. |
| PrepareSubstackDir.FilterSlices | prepare_substack_dir.py:123 | It keeps exactly the listed paths with extension ".png" or ".tif", never more than were listed. |
| PrepareSubstackDir.FilterSlicesAppend | prepare_substack_dir.py:123 | Filtering keeps listing order: the filter of a concatenation is the concatenation of the filters. |
| PrepareSubstackDir.IndexedOkIff | prepare_substack_dir.py:129-132 | Indexing succeeds iff every kept file has an index, which for `SliceIndex` means a digit in its base name. |
| PrepareSubstackDir.IndexedFirstUnnumbered | prepare_substack_dir.py:131-132 | A failure names the first file without an index. |
| PrepareSubstackDir.IndexedKeysCover | prepare_substack_dir.py:134-135 | Every file's index is a key of the map. |
| PrepareSubstackDir.IndexedKeysFromFiles | prepare_substack_dir.py:134-135 | Every key is the index of some file. |
| PrepareSubstackDir.IndexedLastWins | prepare_substack_dir.py:135 | An index maps to the resolved path of the last file that carries it. |
| PrepareSubstackDir.BuildIndex | prepare_substack_dir.py:126-135 | The dict-filling loop computes `Indexed` with `SliceIndex`. The lemmas above characterise `Indexed` for any index function. |
| PrepareSubstackDir.Renumber | prepare_substack_dir.py:142-148 | Action i links or copies `indexed[start+i]` to `slice_dir/pad5(i)+ext`. With every index of [start, stop) present there are `max(0, stop-start)` actions. Otherwise the loop stops at the first missing index with a KeyError, having emitted exactly the actions before it. |
| PrepareSubstackDir.RenumberedUnique | prepare_substack_dir.py:142-148 | The actions and the failure are determined by the map and the range. |
| PrepareSubstackDir.RenumberedCompleteIff | prepare_substack_dir.py:142-143 | The run completes iff every index of [start, stop) has a file. |
| PrepareSubstackDir.RenumberedModesAgree | prepare_substack_dir.py:145-148 | Copy mode and link mode have the same length, failure, sources and destinations, and differ only in the kind of action. |
| PrepareSubstackDir.DestInjective | prepare_substack_dir.py:144 | Distinct new indices give distinct destination paths. |
| PrepareSubstackDir.RenumberedDestsDistinct | prepare_substack_dir.py:144 | No two actions of a run write the same destination. |
| PrepareSubstackDir.PaddedIndexIsStem | prepare_substack_dir.py:144 | A padded new index is a digit run without '/' or '.' that reads back as the index. |
| PrepareSubstackDir.DestReindexes | prepare_substack_dir.py:144 | A destination is again a slice file, and its digit-run index is its new index. |
| PrepareSubstackDir.RenumberedReindexes | prepare_substack_dir.py:142-144 | The i-th file written is a slice file with index i. |
| PrepareSubstackDir.Prepare | prepare_substack_dir.py:55-150 | Run order: template checks, then setup, whose failure stops the run before any params, then params, then filtering, where no slice file is an IndexError. Then indexing, whose error is passed on, then renumbering with the extension of the first kept file. Every written file re-indexes to its position. |
| LaunchFlatten.Lookup | launch_flatten.py:39-42 | Lookups in order succeed iff all keys are present, and give their values. Otherwise the KeyError names the first missing key. |
| LaunchFlatten.ReadParams | launch_flatten.py:39-42 | It reads the four stored values, or gives a KeyError for the first absent key, in the order base dir, name, tab, billing project. |
| LaunchFlatten.Validate | launch_flatten.py:35-48 | The launch goes on iff the record is readable and complete, its base dir equals the resolved argument, and the parameter script exists. The first failing check gives the error: an unreadable record, the record's KeyError, a mismatch reporting the record's base dir and the argument (even if the script is also missing), then the missing script's path. |
| LaunchFlatten.PreparedParamsReadBack | prepare_substack_dir.py:115-116 | The record the preparer dumps reads back as its base dir, name, tab and billing project. |
| LaunchFlatten.PreparedDirValidates | launch_flatten.py:43-48 | The prepared directory passes the checks once its script exists. Any other directory with that record is refused as a mismatch. |
| LaunchFlatten.BuildBsubArgs | launch_flatten.py:55-68 | The `+=` sequence produces `bsub`, `-n 1`, `-J flatten_<name>`, `-env "PARAM_PATH=<script>"`, `-P <bill>`, `-g "/<bill>/flatten/<tab>"` and `-o <log>`. Then, only with an address, come `-u <addr>`, `-N` and `-B`. Last comes `FLATTEN_SCRIPT <script>`. The list has 8 or 11 elements. |
| LaunchFlatten.EmailFlagsIff | launch_flatten.py:63-66 | `-N`, `-B` and a `-u ` argument each appear iff a non-empty address is given. |
| LaunchFlatten.Split | launch_flatten.py:72 | Splitting at a character gives at least one piece, and no piece holds that character. |
| LaunchFlatten.SplitJoin | launch_flatten.py:70 | Joining with a one-character separator that occurs in no element, then splitting at it, gives the elements back. |
| LaunchFlatten.JoinFramed | launch_flatten.py:70 | Joining with `pre + c + post` is joining with `c` the elements framed by `post` (all but the first) and `pre` (all but the last). |
| LaunchFlatten.PrettyLines | launch_flatten.py:70-72 | The displayed command has one line per argument. Every line but the last ends in " \\", and every line but the first is indented by two spaces. |
| LaunchFlatten.Launch | launch_flatten.py:29-77 | Run order: resolve, read the record, check it, then read USER, where an unset USER is a KeyError. The result is the argument list, its display join, its space join, and a warning iff the user is not "flyem". The user never changes the list. |

## Left out

- Cookiecutter rendering (prepare_substack_dir.py:106-108) calls a foreign library. Only the two existence checks before it are modelled, as booleans.
- File-system side effects are not modelled: `os.makedirs`, writing and reading the JSON file, and `chmod -R g+w`. Their failures, and the rendering's, are the one boolean `setupSucceeds`. A setup failure gives no params, even when `chmod` fails after the record was already written. The record is the map `ParamsJson`. A record that cannot be read is the error `ParamsUnreadable`.
- `glob.glob` and `os.path.abspath` are opaque functions passed in. Path normalisation (`..`, repeated '/') is not modelled.
- `shutil.copyfile` and `os.symlink` are emitted as actions, not carried out. Their own failures (for example, a destination that already exists) are not modelled.
- Running `bsub`, capturing its output and printing are external processes and console output. `Launch` stops at the command it would run.
- `warnings.warn` is modelled only as the flag `warnNotFlyem`.
- Argument parsing and its defaults (`--fly Z1217-19m`, `--region VNC`, `--parent-output-dir .`) are not modelled. `Args` is the parsed result, and an absent option is None.
- The progress bar (`tqdm`) is not modelled.
- Decimal.FirstDigitRun: Python's `\d` also matches non-ASCII decimal digits, and `int()` accepts them. The model recognises '0'–'9' only.
- The launcher's checks are `assert` statements. They vanish under `python -O`, and the model always performs them.
- LaunchFlatten.ReadParams: JSON values are taken to be strings, since the preparer writes only strings. Records with other value types are not modelled.
- A job-ID or queue-name parser for `bsub` output is not part of this model; the two tools contain none.
