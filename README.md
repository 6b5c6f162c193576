# Documentation-snippet harness, modelled in Dafny

This project models the compile-and-select core of `src/conftest.py`. That file is the
pytest harness that wraps a documentation snippet in a Solidity or Vyper contract,
compiles it and picks one artifact out of the compiler's output. The model covers:

- the Solidity and Vyper templates of the `check_*` helpers. A snippet is indented with
  `("\n" + " " * k).join(snippet.split("\n"))`, where k is 8 for Solidity and 4 for
  Vyper. It is then spliced into a fixed contract (`templates.dfy`, `text.dfy`);
- `get_bytecode`, which cuts the `bin` string at the first character outside `[a-f0-9]`
  (`bytecode.dfy`);
- the selection of one artifact from solc's output:
  - `compile_single_contract` needs exactly one key;
  - `compile_named_contract` takes the first key that contains the name;
  - `compile_specific_contract` needs the exact key `"<stdin>:" + name`;
  - the `.sol` branch of `compile_single_contract_from_files` takes the first key ending
    in `":" + contract`, or applies the single-contract rule when `contract` is None

  (`selection.dfy`, `solidity.dfy`);
- the Vyper side (`vyper.dfy`, `files.dfy`):
  - the `codes` OrderedDict, filled in place: a class whose `Put` has Python's
    dictionary-assignment semantics;
  - the loop that reads every path into `codes`;
  - `_compile_vyper_sources`, which strips the `0x` prefixes and renames Vyper's fields
    to solc's `bin`, `bin-runtime` and `abi`;
  - `compile_specific_vyper_contract`;
  - the extension dispatch of `compile_single_contract_from_files`.

Compiler output is a sequence of (key, artifact) pairs, so "the first key in iteration
order" can be stated. solc, Vyper and `open(...).read()` are function-typed parameters.
Each one returns its result or the error it raises. Each exception the harness raises
is a constructor of `Compiled.Error`.

Two places where the code does less, or other, than its own names and docstrings suggest. The
model follows the code:

- `compile_named_contract` is documented as compiling the "named contract"
  (src/conftest.py:226). Its test at line 231 is `name in key`, a substring match, so
  asking for `Token` returns a contract called `MyTokenSale`. It succeeds even when no
  contract has that name (`Selection.NamedSelectionMatchesSubstrings`).
- `get_bytecode`'s docstring says it removes the tail "containing any non-hex characters"
  (src/conftest.py:306-308). The class at line 310 is `[a-f0-9]`, so an upper-case hex
  digit is also a cut point (`Bytecode.GetBytecodeCutsAtUpperCase`).

## Model

| member | source | states |
|---|---|---|
| Text.Split | src/conftest.py:65 | `snippet.split("\n")` gives one more piece than there are newlines, and no piece contains a newline |
| Text.JoinSplit | src/conftest.py:65-66 | `Text.Indent`, the indentation `("\n" + " " * k).join(snippet.split("\n"))`, is `Join` over `Split`: joining the split pieces with a separator replaces every newline of the snippet by that separator, and nothing else changes |
| Text.SplitJoinRoundTrip | src/conftest.py:65-66 | joining the pieces with `"\n"` gives back the snippet |
| Text.IndentCounts | src/conftest.py:65-66 | indentation keeps the number of newlines and adds exactly k characters per newline |
| Text.IndentRoundTrip | src/conftest.py:65-66 | replacing every `"\n" + k spaces` by `"\n"` in the indented snippet gives back the original snippet |
| Text.IndentedBlockLines | src/conftest.py:66-69 | k spaces followed by the indented snippet splits into exactly the snippet's lines, each behind k spaces |
| Text.SplitVerbatim | src/conftest.py:104-105 | a snippet inserted verbatim after a line prefix keeps its own lines; only its first line is behind the prefix |
| Text.EndsWithContains | src/conftest.py:261 | a key ending in `":" + name` contains `name` |
| Text.ConcatContains | src/conftest.py:239 | the key `"<stdin>:" + name` built by `Selection.StdinKey` contains `name` |
| Templates.LocalSolidityLines | src/conftest.py:64-72 | `Templates.LocalSolidityCode`, the `check_local_s` f-string, is: the contract and constructor headers, every snippet line behind 8 spaces, the two closing braces, then an empty final line |
| Templates.LocalVyperLines | src/conftest.py:81-88 | `Templates.LocalVyperCode`, the `check_local_v` f-string, is: an empty line, `@public`, `def __init__():`, every snippet line behind 4 spaces, an empty final line |
| Templates.GlobalSolidityLines | src/conftest.py:103-109 | `Templates.GlobalSolidityCode`, the `check_global_s` f-string, keeps the snippet's own lines, the first behind 4 spaces, between the contract header and an empty constructor |
| Templates.GlobalConstructorSolidityLines | src/conftest.py:120-127 | in `Templates.GlobalConstructorSolidityCode`, the `check_global_constructor_s` f-string, both snippets keep their own lines; only their first lines are behind 4 and 8 spaces |
| Templates.GlobalVyperLines | src/conftest.py:136-143 | `Templates.GlobalVyperCode`, the `check_global_v` f-string, is an empty line, the snippet's lines unchanged, an empty line, then an `__init__` whose body is `pass` |
| Templates.SolidityLines | src/conftest.py:158-167 | `Templates.SolidityCode`, the `check_s` f-string, places the global snippet as `check_global_s` does and every local line behind 8 spaces in the constructor |
| Templates.VyperLines | src/conftest.py:176-185 | `Templates.VyperCode`, the `check_v` f-string, places the global snippet as `check_global_v` does and every local line behind 4 spaces in `__init__` |
| Bytecode.FirstNonHex | src/conftest.py:310-311 | the match position of `[^a-f0-9]`: everything before it is in the class, and the character there is not |
| Bytecode.GetBytecode | src/conftest.py:305-313 | the result is a prefix of `bin` made only of `[a-f0-9]`; it stops only at a character outside the class; an all-hex `bin` is returned whole |
| Bytecode.GetBytecodeUnique | src/conftest.py:310-313 | those three facts determine the result: any prefix that satisfies them is the result |
| Bytecode.GetBytecodeIdempotent | src/conftest.py:310-313 | cleaning a cleaned bytecode changes nothing |
| Bytecode.GetBytecodeCutsAtUpperCase | src/conftest.py:310 | upper-case hex digits are cut points: `60AB` gives `60` |
| Bytecode.GetBytecodeAsWritten | src/conftest.py:1-9 | as written, every call fails, because `re` is never imported |
| Bytecode.GetBytecodeAsWrittenRaises | src/conftest.py:310 | on the all-hex `6080` the code as written raises `NameError`, while the intended result is `6080` |
| Selection.FirstMatch | src/conftest.py:230-232 | the position found is the first key, in iteration order, that passes the test; no position means no key passes |
| Selection.Scan | src/conftest.py:230-233 | the early-returning `for key in compiled_all` loop returns the value at the first key that passes the test, or nothing |
| Selection.UniqueKeyIsFirst | src/conftest.py:240-242 | with unique keys, the exact lookup of an entry's key finds that entry |
| Selection.SingleSelection | src/conftest.py:219-222 | success exactly when there is one key, with its artifact; more than one key raises the given error; none raises `StopIteration` |
| Selection.NamedSelection | src/conftest.py:230-233 | success exactly when some key contains the name, with the first such key's artifact; otherwise "Named contract not found" |
| Selection.SpecificSelection | src/conftest.py:239-243 | success exactly when `"<stdin>:" + name` is a key, with an entry stored under it; otherwise "Contract <name> not in source" |
| Selection.FileSelection | src/conftest.py:253-265 | without a name, the single-contract rule with "Multiple contracts available"; with one, success exactly when some key ends in `":" + contract`, with the first such artifact, otherwise "No contract with name …" carrying all keys |
| Selection.SpecificSelectionFindsEntry | src/conftest.py:240-242 | with unique keys, the artifact stored under `"<stdin>:" + name` is the one returned |
| Selection.SpecificImpliesNamed | src/conftest.py:230-242 | whenever the exact lookup succeeds, the substring scan for the same name succeeds too |
| Selection.FileSelectionImpliesNamed | src/conftest.py:260-262 | whenever some key ends in `":" + contract`, the substring scan for `contract` succeeds |
| Selection.SingleAgreesWithNamed | src/conftest.py:219-232 | on a one-contract output, the single and named rules return the same artifact when the key contains the name |
| Selection.NamedSelectionMatchesSubstrings | src/conftest.py:230-233 | asking for `Token` returns `MyTokenSale` when that key comes first, even when no contract is named `Token`; the exact lookup does not |
| SolidityCompile.CompileSingleContract | src/conftest.py:214-222 | compiler errors pass through; success exactly when the output has one contract, with its artifact; more raises "Can only handle single contracts." |
| SolidityCompile.CompileNamedContract | src/conftest.py:225-233 | compiler errors pass through; otherwise the result of the substring rule on the output |
| SolidityCompile.CompileSpecificContract | src/conftest.py:236-243 | compiler errors pass through; success exactly when `"<stdin>:" + name` is a key of the output, with an entry stored under it |
| VyperCompile.Inserted | src/conftest.py:271 | dictionary assignment stores the value under the key, leaves every other key's value alone, keeps keys unique, and appends the key only when it is new |
| VyperCompile.ReplacedLookups | src/conftest.py:271 | assigning to an existing key keeps the key order and changes only that key's value |
| VyperCompile.AppendedLookups | src/conftest.py:271 | assigning to a new key appends it and changes no other key's value |
| VyperCompile.CodeDict.constructor | src/conftest.py:268 | a new `OrderedDict` is empty |
| VyperCompile.CodeDict.Put | src/conftest.py:271 | `codes[key] = value` in place keeps the keys unique; the new contents are the assignment applied to the old |
| VyperCompile.DropTwo | src/conftest.py:286-287 | `s[2:]` is the suffix two characters shorter, or empty when `s` is shorter than two |
| VyperCompile.Normalise | src/conftest.py:285-289 | `bin` and `bin-runtime` are `bytecode[2:]` and `bytecode_runtime[2:]`, whatever the first two characters are: two characters shorter, or empty when shorter than two; with a `0x` prefix, that prefix followed by the result is the original; `abi` is passed through |
| VyperCompile.NormaliseDenormalise | src/conftest.py:285-289 | adding `0x` back and normalising again gives the same artifact: normalising loses nothing |
| VyperCompile.DenormaliseNormalise | src/conftest.py:285-289 | a contract whose bytecodes start with `0x` is recovered from its normalised artifact |
| VyperCompile.CompileVyperSources | src/conftest.py:275-290 | compiler errors pass through; success exactly when the output holds `name`, with that contract normalised; otherwise `KeyError` |
| VyperCompile.CompileSpecificVyperContract | src/conftest.py:293-297 | the source alone, under the key `main`, compiled and asked for `main` |
| VyperCompile.ReadInto | src/conftest.py:268-271 | failure carries the error of the first unreadable path, every earlier path having been read (`FirstUnreadable`); success means every path holds its file's content, other keys keep their values, keys stay unique, no other key appears, and the keys are the old ones followed by the new paths in the order they were assigned (`AllRead`, `NewKeys`) |
| VyperCompile.NewKeysDistinct | src/conftest.py:269-271 | assigning distinct paths that are not yet keys appends them in exactly their order |
| Files.CompileSingleContractFromFiles | src/conftest.py:246-272 | the method is proved equal to `Files.FromFiles`: an empty path list raises `IndexError`; a first path ending in `.sol` (`Files.IsSolidityPath`) compiles all paths with solc and selects as the file rule says; otherwise the files are read into `codes` and the Vyper contract of the first path is returned |
| Files.ReadCodes | src/conftest.py:268-271 | the loop filling a fresh `codes` dictionary in place gives exactly the result of the read-into rule from an empty dictionary |
| Files.ReadFromEmpty | src/conftest.py:268-271 | reading into a fresh dictionary gives unique keys in the order the paths were first assigned, exactly `paths` when no path repeats, each holding its file's content |
| Files.SolidityPathsUseSolc | src/conftest.py:251-265 | when the first path ends in `.sol`, neither the file reader nor Vyper affects the result |
| Files.VyperPathsIgnoreSolcAndName | src/conftest.py:267-272 | otherwise neither solc nor the requested contract name affects the result |
| Files.VyperPathCompilesAllFiles | src/conftest.py:268-272 | a successful Vyper path compiled every file's content under its own path, keys in path order and no other key, and returned Vyper's contract for the first path |

## Left out

- The `web3` fixture and `_test_compiled_snippet` (src/conftest.py:12-14, 196-201): deployment runs on an external chain through web3, so there is nothing to state without it.
- The `check_*` wrappers themselves (src/conftest.py:17-193): they compose a template, a compile call and a deployment. The templates and compile rules are modelled; deployment is not.
- `compile_contracts_s` and `compile_contracts_v` (src/conftest.py:204-211): each forwards to solc or to `compile_specific_vyper_contract` unchanged.
- `get_abi` (src/conftest.py:300-302): a single field access, `Artifact.abi`.
- `vyper_exc_handler` (src/conftest.py:316-319): it logs and re-raises. The model lets the compiler's error through unchanged, which has the same effect.
- solc, `vyper.compiler.compile_codes` and file reading: foreign code and I/O. Each is a parameter returning its output or the error it raises. Whether a snippet compiles is not modelled.
- Compiler keyword arguments (`**compiler_kwargs`): they are only passed to the compiler parameter's hidden behaviour.
- Selection.FileSelection: the error message embeds `compiled_all.keys()` as Python renders it; the model carries the key list, not its text.
- Compiled.Error: exception messages are constructors, not rendered strings.
- `src/main.py` and `src/html.py` are not part of this model: page rendering and shelling out to the compilers.

## Findings

| source | as written | input that shows it | evidently intended | confidence | as-written member | corrected member |
|---|---|---|---|---|---|---|
| src/conftest.py:310 | `re.search` is called, but `re` is never imported (src/conftest.py:1-9), so every call raises `NameError` | any artifact, e.g. `bin = "6080"` | cut `bin` at the first character outside `[a-f0-9]`; `"6080"` stays whole | high; not executed | Bytecode.GetBytecodeAsWritten, Bytecode.GetBytecodeAsWrittenRaises | Bytecode.GetBytecode |
