# LHA member files, the LHAPDF data path and the CLI environment

This project models, in Dafny, how `pydf` reads PDF sets stored in the LHAPDF
("LHA") format, and proves properties of that model.

- **Member files and sets** (`lha_parse.dfy`, module `LhaParse`).
  - The member-name convention `<set>_DDDD?dat`.
  - The three-tier member type (`member_type`).
  - A member file is split on `---` into a YAML header and blocks. A trailing part is dropped when blank.
  - Each block is an x line, a Q line, a flavor line and a value table. The table is reshaped row-major into an (x, Q, flavor) tensor.
  - `parse` folds over the sorted member files. It drops filtered members and records members with naming or member-0000 problems as unidentified. It re-raises everything else.
- **The data path** (`lha_path.dfy`, module `LhaPath`).
  - `LHAPDF_DATA_PATH`, then `LHAPATH`, then the installation prefixes probed in order, then the legacy `lhapdf` package.
  - The first-match lookups `locate` and `global_resource` over that path, and `config`/`index`.
- **The legacy resolver** (`lha_configuration.dfy`, module `LhaConfiguration`). It yields one path and is used by the CLI.
- **The registry of installed sets** (`lha_utils.dfy`, module `LhaUtils`): `list_installed`.
- **The containers** `PDFMember` and `PDF` (`lha_pdf.dfy`, module `LhaPdf`), as datatypes.
- **The CLI environment** (`cli_configuration.dfy`, module `CliConfiguration`). The `Environment` class keeps its sources, its lazily cached data path and the `listdir` snapshot.

Support modules:

- `strings.dfy` holds Python's `str.split`, `strip`, `lower`, substring tests, whitespace fields and sorting.
- `arrays.dfy` holds row-major flattening and numpy's three-dimensional `reshape`.
- `platform.dfy` holds results and errors, `pathlib` paths and a snapshot of the host.

Everything outside the program is a parameter:

- The environment, `sys.prefix`, `sys.base_prefix`, the home directory and the working directory are a `Host` value.
- The file system is a map from paths to directories (with their entries in listing order), regular files (with their text) and other nodes.
- `lhapdf.paths()` is an optional list; `None` means the package cannot be imported.
- YAML loading is an oracle from text to a mapping, a non-mapping or malformed input.

Python exceptions become the `Err` case of a `Result`. The exception messages are modelled exactly where `parse` inspects them.

Imperative code stays imperative:

- `lhapdf_datapath` (`LhaPath.LhapdfDatapath`), `member` (`LhaParse.Member` and `LhaParse.ReadMember`), `parse` (`LhaParse.Parse`) and `list_installed` (`LhaUtils.ListInstalled`) are methods. Their loops are methods too, with invariants.
- Each is proved equal to a specification function.
- The properties of the source are proved about those functions.
- `Environment` is a class whose methods update its fields.

## Model

| member | source | states |
|---|---|---|
| LhaPath.SlashTwoNames | src/pydf/lha/path.py:56 | `prefix / "share/LHAPDF/"` appends exactly the two names `share`, `LHAPDF` to the prefix |
| LhaPath.FirstSetVariable | src/pydf/lha/path.py:39-41 | the result is set iff one of the variables is defined, and it is the value of a defined one, the earlier variable winning |
| LhaPath.Probe | src/pydf/lha/path.py:56-62 | a prefix contributes iff its `share/LHAPDF` is a directory; the contribution is the nested `lhapdf` directory when that is one, else `share/LHAPDF`, and is always a directory |
| LhaPath.LhapdfDatapath | src/pydf/lha/path.py:13-73 | the loop over variables and prefixes returns exactly `DataPath`: variable split on ':', else all prefix hits, else the legacy package's paths, else FileNotFoundError |
| LhaPath.PrefixHitsInOrder | src/pydf/lha/path.py:52-62 | the hits are the successful probes, one per candidate, in candidate order, none passed over and duplicates kept |
| LhaPath.HitOfProbe | src/pydf/lha/path.py:53-62 | a None candidate contributes nothing; a present one contributes exactly its probe |
| LhaPath.PrefixHitsAreDirectories | src/pydf/lha/path.py:57-62 | every prefix-derived data-path entry is an existing directory |
| LhaPath.DataPathFromVariables | src/pydf/lha/path.py:39-42 | `LHAPDF_DATA_PATH` beats `LHAPATH`; the value is split on ':' with no existence check, so the path is non-empty |
| LhaPath.DataPathFromPrefixes | src/pydf/lha/path.py:64-73 | a non-empty hit list is returned; only an empty one consults the legacy package, whose absence is a FileNotFoundError |
| LhaPath.SameEndsHitTwice | src/pydf/lha/path.py:52-62 | when the first and last candidate prefixes are the same one with data, the hits start and end with the same entry |
| LhaPath.SamePrefixListedTwice | src/pydf/lha/path.py:45-62 | when `sys.prefix` equals `sys.base_prefix` and has data, the same entry is listed first and last (no de-duplication) |
| LhaPath.LegacyPackageMayGiveEmptyPath | src/pydf/lha/path.py:68-71 | a legacy package reporting no paths yields an empty data path without error |
| LhaPath.FirstWhere | src/pydf/lha/path.py:97-100 | the first root, in order, whose child is accepted; none iff no root's child is accepted |
| LhaPath.Locate | src/pydf/lha/path.py:95-102 | `root / setname` for the earliest root where it exists; the FileNotFoundError message otherwise; data-path errors propagate |
| LhaPath.GlobalResource | src/pydf/lha/path.py:124-133 | `root / filename` for the earliest root where it is a regular file (a directory does not count); FileNotFoundError otherwise |
| LhaPath.IndexIsConfig | src/pydf/lha/path.py:136-159 | `index()` and `config()` both resolve `global_resource("lhapdf.conf")` |
| LhaConfiguration.FirstProbe | src/pydf/lha/configuration.py:34-43 | the first prefix with a `share/LHAPDF` directory is returned, preferring the nested `lhapdf` one; none iff no prefix has one |
| LhaConfiguration.FirstProbeIsFirstHit | src/pydf/lha/configuration.py:28-43 | the legacy first probe is the first entry of the full prefix-hit list |
| LhaConfiguration.LegacyIsFirstOfDataPath | src/pydf/lha/configuration.py:16-53 | the legacy resolver takes a variable whole, else returns the first prefix hit, else the first legacy path (IndexError when empty), else FileNotFoundError — the first entry of the newer data path where the two agree |
| LhaConfiguration.ColonSeparatedIsOnePath | src/pydf/lha/configuration.py:22-25 | a ':'-separated `LHAPDF_DATA_PATH` is one path for the legacy resolver and count(':')+1 paths for the newer one |
| LhaUtils.RegisterEntries | src/pydf/lha/utils.py:20-25 | the inner loop registers exactly what `AddEntries` describes |
| LhaUtils.ListInstalled | src/pydf/lha/utils.py:8-27 | resolving the data path and then registering its roots returns exactly `ListInstalledSpec`: data-path errors and unlistable roots fail, otherwise the registry |
| LhaUtils.RegisterRoots | src/pydf/lha/utils.py:17-27 | the outer loop over the roots returns exactly `Installed`: the first root that cannot be listed fails the call |
| LhaUtils.InstalledErrorStops | src/pydf/lha/utils.py:19-20 | once a root cannot be listed the whole call fails with that error |
| LhaUtils.AddEntriesSpec | src/pydf/lha/utils.py:20-25 | a registered name keeps its path; an unregistered name is added iff it is listed and is a directory holding `<name>.info`, with its absolute path |
| LhaUtils.InstalledSpec | src/pydf/lha/utils.py:19-25 | a name is registered iff some root offers it; its value is the absolute path under the earliest offering root; a non-qualifying entry in an earlier root does not block it; nothing else appears |
| LhaUtils.InstalledFailsOnNonDirectory | src/pydf/lha/utils.py:19-20 | listing fails exactly when some data-path root is not a directory |
| LhaParse.MemberNameRoundTrip | src/pydf/lha/parse.py:36 | the conventional name `<set>_<id>.dat` of a four-digit id matches and captures that id |
| LhaParse.MemberNameShape | src/pydf/lha/parse.py:36 | a match is `<set>_`, the captured four digits, one non-newline character and `dat` |
| LhaParse.AnyCharacterBeforeDat | src/pydf/lha/parse.py:36 | the unescaped '.' lets any non-newline character stand before `dat` |
| LhaParse.GlobbedNameMatches | src/pydf/lha/parse.py:144-146 | among globbed names the pattern accepts exactly those with four digits after `<set>_` and nine characters more than the set name, and each accepted name is the conventional `<set>_<id>.dat` |
| LhaParse.MemberType | src/pydf/lha/parse.py:66-80 | error iff id 0000 has an explicit non-central type, with a ValueError naming 0000; an explicit type is returned unchanged; id 0000 is central; never None |
| LhaParse.NotCentralMessageMarked | src/pydf/lha/parse.py:68 | the not-central message contains "0000" |
| LhaParse.MemberTypeFromErrorType | src/pydf/lha/parse.py:71-80 | without an explicit type a non-0000 member is `error` for (sym)hessian, `replica` for replicas, `member` otherwise including None |
| LhaParse.MemberTypeIgnoresCase | src/pydf/lha/parse.py:74 | error types differing only in case give the same member type |
| LhaParse.ErrorTypeNotForwarded | src/pydf/lha/parse.py:191 | without the error type a non-0000 untyped member is `member`, where the set's hessian type would have made it `error` |
| LhaParse.GridTokens | src/pydf/lha/parse.py:94-102 | the grid values are exactly the pieces of `line.split(" ")` that are not blank (empty or tabs alone), in order; they lose no character but spaces and tabs; a line of only spaces and tabs gives an empty grid, not an error, because the column is named |
| Strings.FieldsAreSplitPieces | src/pydf/lha/parse.py:94-102 | with one separator character, the words of a text are exactly the non-empty pieces of `str.split` on it, in order |
| LhaParse.NonBlankOfNonEmpty | src/pydf/lha/parse.py:94-102 | leaving out the empty pieces before the blank ones changes nothing |
| LhaParse.NonBlankKeepsText | src/pydf/lha/parse.py:94-102 | leaving out the tab-only tokens loses nothing but tabs |
| LhaParse.NonBlankWithoutTabs | src/pydf/lha/parse.py:94-102 | non-empty tokens without tabs are all kept, in order |
| LhaParse.GridTokensWithoutTabs | src/pydf/lha/parse.py:100-105 | on a line without tabs the grid values are exactly the whitespace-separated fields the value table reads |
| LhaParse.FirstWide | src/pydf/lha/parse.py:103-105 | finds a row wider than the header iff there is one |
| LhaParse.Pad | src/pydf/lha/parse.py:103-105 | a short row becomes exactly `width` cells: its fields in order, then missing cells |
| LhaParse.PadRows | src/pydf/lha/parse.py:103-105 | every data row is padded to the header's width, in order |
| LhaParse.ReadTable | src/pydf/lha/parse.py:103-105 | the table is `TableFrom` the whitespace-separated fields of each line of the text: a table read without error has a non-empty header and every row has exactly the header's width |
| LhaParse.LineFields | src/pydf/lha/parse.py:103-105 | one entry per line of the text, the whitespace-separated fields of that line |
| LhaParse.TableRowsInOrder | src/pydf/lha/parse.py:103-105 | the rows are lines holding a field, numbered from 1 in line order, each with that line's own fields; the row numbers are exactly the numbers of those lines, so none is passed over or repeated |
| LhaParse.TableFrom | src/pydf/lha/parse.py:103-105 | a table built without error has a non-empty header and every row has the header's width |
| LhaParse.TableFromEmpty | src/pydf/lha/parse.py:103-105 | a text with no line holding a field is the "No columns" error |
| LhaParse.TableFromHeader | src/pydf/lha/parse.py:103-105 | the header is the fields of the first line holding one; every earlier line is blank |
| LhaParse.TableFromRows | src/pydf/lha/parse.py:103-105 | the read succeeds iff no later row is wider than the header; then the columns are the header and the rows are the later lines' fields, in order, each padded to the header's width |
| LhaParse.MemberBlock | src/pydf/lha/parse.py:92-109 | an accepted block has a non-empty x grid (Q and flavor grids may be empty) and values shaped (len x, len Q, len flavors) |
| LhaParse.XLineHoldsValue | src/pydf/lha/parse.py:92-96 | the stripped block starts on a character that is not whitespace, so its x line always holds a value |
| LhaParse.Reshaped | src/pydf/lha/parse.py:107 | the reshape keeps the grids, has the 3-d shape, and fails iff the value count differs from the product of the grid sizes |
| LhaParse.MemberBlockNeedsFourLines | src/pydf/lha/parse.py:92 | a stripped block with fewer than three newlines cannot be unpacked into four parts |
| LhaParse.ReshapedLayout | src/pydf/lha/parse.py:103-107 | value (i, j, k) is `flat[(i*nq + j)*nfl + k]` of the table read row by row (flavor fastest) |
| LhaParse.ReshapedKeepsCells | src/pydf/lha/parse.py:107 | reading the block out row-major gives back every table cell in order |
| LhaParse.FlavorLineIsHeader | src/pydf/lha/parse.py:100-105 | the flavor line heads the value table: on a tab-free flavor line holding some id, the table columns are the flavor ids |
| LhaParse.Segments | src/pydf/lha/parse.py:151-169 | the blocks are the parts after the header; the part after the last `---` is dropped iff it is blank |
| LhaParse.ParseBlocksSpec | src/pydf/lha/parse.py:169-172 | the blocks parse iff every segment does; then one block per segment; otherwise the first failing segment's error propagates |
| LhaParse.MemberSpec | src/pydf/lha/parse.py:142-174 | a member read without error has a conventional name, passes the filter, has a non-None `PdfType` (central for 0000) and returns the placeholder `[np.array([])]` (the full outcome is in `MemberSpecSteps`) |
| LhaParse.MemberSpecSteps | src/pydf/lha/parse.py:142-150 | a name off the convention is the naming ValueError; else a filtered-out id is MemberSkip with that id; else the result is exactly reading the member (`ReadMemberSpec`) |
| Platform.MapResults | src/pydf/lha/parse.py:169-170 | one result per element: `f` applied to each element, in order |
| Platform.Traverse | src/pydf/lha/parse.py:168-172 | the block loop returns exactly the results of `member_block` in order, stopping at the first error |
| LhaParse.SplitMember | src/pydf/lha/parse.py:151-165 | the header text is the part before the first `---` and the block segments are exactly `Segments` |
| LhaParse.ReadMemberSpec | src/pydf/lha/parse.py:150-174 | a member read without error returns the placeholder `[np.array([])]` and a header whose `PdfType` is set, not None, and central for 0000 (success, header and errors in the three lemmas below) |
| LhaParse.ReadMemberSpecOk | src/pydf/lha/parse.py:150-172 | reading succeeds iff the path is a regular file, the text before the first `---` is a YAML mapping, `member_type` accepts its `PdfType`, and every block segment passes `member_block` |
| LhaParse.ReadMemberHeader | src/pydf/lha/parse.py:150-153 | on success the header is the file's mapping key by key, except that `PdfType` is what `member_type` makes of the file's value (None when absent) |
| LhaParse.ReadMemberSpecErr | src/pydf/lha/parse.py:150-172 | an unreadable file is an OSError, malformed YAML a YAML error, a non-mapping an AttributeError, a refused `PdfType` the `member_type` error; otherwise a failure is the error of the first failing block |
| LhaParse.ReadMember | src/pydf/lha/parse.py:150-174 | reading the file, typing the header, dropping a blank last part and parsing the blocks returns exactly `ReadMemberSpec`, so the outcome is as `ReadMemberSpecOk`, `ReadMemberHeader` and `ReadMemberSpecErr` state |
| LhaParse.Member | src/pydf/lha/parse.py:142-174 | `member` returns exactly `MemberSpec`: the name check, then the filter, then the read, as `MemberSpecSteps` states |
| LhaParse.MemberSkipBeforeRead | src/pydf/lha/parse.py:147-150 | a filtered-out member raises MemberSkip with its id whatever the file system holds |
| LhaParse.SliceIndices | src/pydf/lha/parse.py:185 | `slice.indices(stop)` fails iff the stop is None or negative or the step is 0; otherwise the start is clamped into the index range and the end is the length (or length-1 going down) |
| LhaParse.GlobMatches | src/pydf/lha/parse.py:189 | keeps exactly the listed names the member glob selects |
| LhaParse.MemberNames | src/pydf/lha/parse.py:189 | the member names are sorted and are exactly the globbed entries of the set directory |
| LhaParse.MemberPaths | src/pydf/lha/parse.py:189 | one path `pdfdir / name` per name, in order |
| LhaParse.ClassifyInverse | src/pydf/lha/parse.py:190-200 | a member loads iff it returned, is skipped iff it raised MemberSkip, is recorded iff it raised a marked ValueError (with that message), and otherwise its own error is re-raised |
| LhaParse.Classified | src/pydf/lha/parse.py:190-200 | one outcome per result, each the classification of that result |
| LhaParse.Outcomes | src/pydf/lha/parse.py:190-200 | each member is read without the error type and classified |
| LhaParse.LoadedOf | src/pydf/lha/parse.py:191-192 | at most one entry per member; none when no member loads |
| LhaParse.LoadedInOrder | src/pydf/lha/parse.py:190-192 | the appended patches are those of the loaded members, one entry per loaded member, in member order: entry k comes from member idx[k], the positions increase and every loaded member has one |
| LhaParse.ExcludedInOrder | src/pydf/lha/parse.py:193-198 | the recorded entries are the excluded members, one per member, in member order: entry k is the path of member idx[k] with its marked message, the positions increase and every excluded member has one |
| LhaParse.CollectOk | src/pydf/lha/parse.py:189-200 | the loop completes iff no member fails fatally, and then holds the loaded patches and the recorded entries |
| LhaParse.CollectFirstFatal | src/pydf/lha/parse.py:196-197 | a failing loop fails with an error some member raised |
| LhaParse.CollectStep | src/pydf/lha/parse.py:190-200 | one more member extends the accumulated lists by exactly that member's outcome |
| LhaParse.CollectErrorStops | src/pydf/lha/parse.py:196-197 | once a member fails fatally the remaining members do not matter |
| LhaParse.Parse | src/pydf/lha/parse.py:177-202 | `parse` returns exactly `ParseSpec`: locate, read and load the info, normalise the filter, fold over the sorted members |
| LhaParse.CollectMembers | src/pydf/lha/parse.py:187-200 | the try/except loop returns exactly `Collect` of the members' outcomes |
| LhaParse.NameMessageMarked | src/pydf/lha/parse.py:146 | the naming error is marked "name convention" |
| LhaParse.NameMismatchExcluded | src/pydf/lha/parse.py:144-198 | a file not matching the convention is recorded as unidentified with its message |
| LhaParse.NonCentralZeroExcluded | src/pydf/lha/parse.py:193-198 | member 0000 with an explicit non-central type is recorded as unidentified |
| LhaParse.ReshapeErrorOfTenThousandIsMarked | src/pydf/lha/parse.py:194-198 | a reshape error over 10000 values names "0000" and so is recorded, not raised |
| LhaParse.CollectClassified | src/pydf/lha/parse.py:190-200 | after the loop every member is the placeholder, every entry is a member path with its marked ValueError, and no member raised anything else |
| LhaParse.MemberResults | src/pydf/lha/parse.py:191 | the `member` result of each path, in order |
| LhaParse.CollectedMembers | src/pydf/lha/parse.py:187-200 | for the members of a set as read: every appended member is the placeholder, there are at most as many as paths, every entry is a member path with its marked ValueError, and no member raised anything else |
| LhaParse.RangeFilterLoadsNothing | src/pydf/lha/parse.py:147 | a `range` filter never contains the string id, so no member is loaded |
| LhaParse.SliceBecomesRange | src/pydf/lha/parse.py:184-185 | an accepted slice becomes a `range` |
| LhaParse.RangeOrSliceParseLoadsNothing | src/pydf/lha/parse.py:184-192 | a parse with a slice or range filter loads no member |
| Arrays.Reshape3Index | src/pydf/lha/parse.py:107 | row-major reshape: element (i, j, k) is `flat[(i*b + j)*c + k]` |
| Arrays.Reshape3RoundTrip | src/pydf/lha/parse.py:107 | reading a reshaped array out gives the flat array back |
| LhaPdf.FromBlock | src/pydf/lha/pdf.py:28-38 | a member with exactly one block holding the four arrays, and `info` as its header |
| LhaPdf.FromBlockRoundTrip | src/pydf/lha/pdf.py:15-38 | `from_block` and taking the single block back are inverse in both directions |
| LhaPdf.DefaultsAreNone | src/pydf/lha/pdf.py:15-53 | omitted headers and info are None |
| LhaPdf.ParsedBlockMember | src/pydf/lha/pdf.py:29-38 | a member built from a block the reader accepted holds that one block, shaped (x, Q, flavor) |
| CliConfiguration.InitialSources | src/pydf_cli/configuration.py:29-31 | the sources start as the CVMFS base then the URL base, each replaced by its variable when set |
| CliConfiguration.DefaultSources | src/pydf_cli/configuration.py:18-31 | without the variables the sources are the two built-in bases |
| CliConfiguration.AfterAddingKeepsOrder | src/pydf_cli/configuration.py:77-81 | after several additions, the added sources come newest first, followed by the earlier sources in their order |
| CliConfiguration.AfterAddingOneMore | src/pydf_cli/configuration.py:77-81 | one more addition puts the new source in front of the earlier result |
| CliConfiguration.Environment.constructor | src/pydf_cli/configuration.py:28-34 | initial sources, the index file name, no data path and no `listdir` yet |
| CliConfiguration.Environment.Sources | src/pydf_cli/configuration.py:43-47 | yields the stored sources in order |
| CliConfiguration.Environment.GetDatapath | src/pydf_cli/configuration.py:49-54 | resolves with the legacy resolver only when nothing is cached, then returns the cached value; a failure caches nothing |
| CliConfiguration.Environment.SetDatapath | src/pydf_cli/configuration.py:56-65 | stores the new path even when it is not a directory; nothing else changes |
| CliConfiguration.Environment.GetListdir | src/pydf_cli/configuration.py:67-71 | snapshots the data path on first read; later data-path changes do not reach it |
| CliConfiguration.Environment.IndexFilename | src/pydf_cli/configuration.py:73-75 | always `pdfsets.index` |
| CliConfiguration.Environment.AddSource | src/pydf_cli/configuration.py:77-81 | the new source goes first, the previous ones follow in order |

## Left out

- Two behaviours of the code are kept as written:
  - `member` splits a member file on every `---`, wherever it occurs, not only on separator lines.
  - The data path can be empty when the legacy package reports no paths (`LhaPath.LegacyPackageMayGiveEmptyPath`).
- The pandas tokenizer is modelled only as far as the block layout needs it:
  - `LhaParse.ReadTable` reads the first non-blank line as the header and splits every line on spaces and tabs. A shorter row is padded with missing cells. A wider row is the tokenizer error, whose message is not reproduced exactly (its line number is approximate).
  - Not modelled: pandas' implicit index when the first data row is wider than the header, quoting, comment characters and '\r' line ends.
  - Floating-point and integer conversion of the tokens is not modelled. Values stay tokens.
- The `\d` class in the member-name pattern is taken as ASCII digits. Python also accepts other Unicode digits.
  - Regex metacharacters in a set name are taken literally, and so are glob metacharacters.
  - A set name containing '/' is not modelled.
- `LhaParse.MemberTypeIgnoresCase`: lower-casing of the error type is ASCII only. The words it is compared against are ASCII.
- UTF-8 decoding errors are not modelled. A file's text is given directly.
- YAML parsing is an oracle:
  - Non-string keys and the exact YAML error are not modelled.
  - The info table is read and checked for malformed input only. `parse` does not use it further.
- `parse` returns `""`. The model exposes the accumulated `members` and `unidentified` lists as its result instead.
- `member` parses the blocks and then discards them, returning `[np.array([])]`. The model does the same.
- Warnings, logging and the log-handler set-up in `Environment.__init__` are not modelled. `debug_logger` and the module-level `environment` singleton are left out, and so is the `functools.cache` on `member_filename`.
- `PDF.upgrade` and `src/pydf/pdf.py` are not part of this model. The function it calls does not exist in the repository.
- `Platform.ToPath`: a path starting with exactly two slashes, which `pathlib` keeps as the root `//`, is rooted at `/`.
- Symbolic links, permissions and file-system changes during a call are not modelled. `absolute()` joins the working directory without normalising.
- Parts of `member`, `parse` and `list_installed` are split into separate methods to keep each proof small: the name and filter checks (`Member`) and the reading (`ReadMember`, `SplitMember`); the block loop (the generic `Platform.Traverse`); the member loop (`CollectMembers`); and the two loops over roots and entries (`RegisterRoots`, `RegisterEntries`).
- `CliConfiguration.Environment.Sources`: the generator is drained into a sequence. Its laziness is not modelled.
