/**
 * `compile_single_contract_from_files`: the extension of the first path picks
 * the toolchain. Solidity files go to solc together and one contract is picked
 * from its output; any other files are read in order into the `codes`
 * dictionary and compiled by Vyper, which is asked for the first path's contract.
 */
module Files {
  import opened Wrappers
  import opened Text
  import opened Compiled
  import opened Selection
  import opened SolidityCompile
  import opened VyperCompile

  predicate IsSolidityPath(path: string) {
    EndsWith(path, ".sol")
  }

  /** What `compile_single_contract_from_files` returns or raises. */
  function FromFiles(compileFiles: FilesCompiler, compileVyper: VyperCompiler, readFile: FileReader,
                     paths: seq<string>, contract: Option<string>): Result<Artifact, Error>
  {
    if |paths| == 0 then Failure(NoPaths)
    else if IsSolidityPath(paths[0]) then
      match compileFiles(paths)
      case Failure(e) => Failure(e)
      case Success(out) => FileSelection(out, contract)
    else
      match ReadInto(readFile, [], paths)
      case Failure(e) => Failure(e)
      case Success(codes) => CompileVyperSources(compileVyper, codes, paths[0])
  }

  method CompileSingleContractFromFiles(compileFiles: FilesCompiler, compileVyper: VyperCompiler,
                                        readFile: FileReader, paths: seq<string>, contract: Option<string>)
    returns (r: Result<Artifact, Error>)
    ensures r == FromFiles(compileFiles, compileVyper, readFile, paths, contract)
  {
    if |paths| == 0 {
      return Failure(NoPaths);
    }
    if IsSolidityPath(paths[0]) {
      var compiled := compileFiles(paths);
      if compiled.Failure? {
        return Failure(compiled.error);
      }
      var out := compiled.value;
      if contract.None? {
        return SingleSelection(out, MultipleContractsAvailable);
      }
      var found := Scan(out, Suffix(":" + contract.value));
      if found.Some? {
        return Success(found.value);
      }
      return Failure(NoContractWithName(contract.value, Keys(out)));
    }
    var codes := ReadCodes(readFile, paths);
    if codes.Failure? {
      return Failure(codes.error);
    }
    r := CompileVyperSources(compileVyper, codes.value, paths[0]);
  }

  /** Lines 268-271: every path read in order into a fresh `codes` dictionary. */
  method ReadCodes(readFile: FileReader, paths: seq<string>) returns (r: Result<Output<string>, Error>)
    ensures r == ReadInto(readFile, [], paths)
  {
    var codes := new CodeDict();
    var i := 0;
    while i < |paths|
      invariant 0 <= i <= |paths|
      invariant codes.Valid()
      invariant ReadInto(readFile, [], paths) == ReadInto(readFile, codes.items, paths[i..])
    {
      var content := readFile(paths[i]);
      assert paths[i..][0] == paths[i] && paths[i..][1..] == paths[i + 1..];
      if content.Failure? {
        return Failure(content.error);
      }
      codes.Put(paths[i], content.value);
      i := i + 1;
    }
    return Success(codes.items);
  }

  /** Solidity paths never reach the file reader or the Vyper compiler. */
  lemma SolidityPathsUseSolc(compileFiles: FilesCompiler, compileVyper: VyperCompiler, readFile: FileReader,
                             otherVyper: VyperCompiler, otherReader: FileReader,
                             paths: seq<string>, contract: Option<string>)
    requires |paths| > 0 && IsSolidityPath(paths[0])
    ensures FromFiles(compileFiles, compileVyper, readFile, paths, contract)
         == FromFiles(compileFiles, otherVyper, otherReader, paths, contract)
  {
  }

  /** Other paths never reach solc, and the contract name is ignored for them. */
  lemma VyperPathsIgnoreSolcAndName(compileFiles: FilesCompiler, compileVyper: VyperCompiler, readFile: FileReader,
                                    otherFiles: FilesCompiler, paths: seq<string>,
                                    contract: Option<string>, otherContract: Option<string>)
    requires |paths| > 0 && !IsSolidityPath(paths[0])
    ensures FromFiles(compileFiles, compileVyper, readFile, paths, contract)
         == FromFiles(otherFiles, compileVyper, readFile, paths, otherContract)
  {
  }

  /**
   * On the Vyper path, a successful compile saw every file's content under its
   * path, with the first path first, and the contract returned is the one
   * Vyper produced under the first path.
   */
  lemma VyperPathCompilesAllFiles(compileFiles: FilesCompiler, compileVyper: VyperCompiler, readFile: FileReader,
                                  paths: seq<string>, contract: Option<string>)
    requires |paths| > 0 && !IsSolidityPath(paths[0])
    requires FromFiles(compileFiles, compileVyper, readFile, paths, contract).Success?
    ensures ReadInto(readFile, [], paths).Success?
    ensures var codes := ReadInto(readFile, [], paths).value;
      && KeysUnique(codes)
      && |codes| > 0 && codes[0].0 == paths[0]
      && (forall p :: p in paths ==> Get(codes, p) == Some(readFile(p).value))
      && (forall k :: k in Keys(codes) ==> k in paths)
      && Keys(codes) == NewKeys([], paths)
      && compileVyper(codes).Success? && paths[0] in compileVyper(codes).value
      && FromFiles(compileFiles, compileVyper, readFile, paths, contract)
         == Success(Normalise(compileVyper(codes).value[paths[0]]))
  {
    ReadFromEmpty(readFile, paths);
  }

  /**
   * Reading into an empty dictionary: the keys are the paths in the order they
   * were first read, so exactly `paths` when no path is repeated.
   */
  lemma ReadFromEmpty(readFile: FileReader, paths: seq<string>)
    requires |paths| > 0 && ReadInto(readFile, [], paths).Success?
    ensures var codes := ReadInto(readFile, [], paths).value;
      && KeysUnique(codes)
      && |codes| > 0 && codes[0].0 == paths[0]
      && (forall p :: p in paths ==> Get(codes, p) == Some(readFile(p).value))
      && (forall k :: k in Keys(codes) ==> k in paths)
      && Keys(codes) == NewKeys([], paths)
      && ((forall i, j :: 0 <= i < j < |paths| ==> paths[i] != paths[j]) ==> Keys(codes) == paths)
  {
    var codes := ReadInto(readFile, [], paths).value;
    var empty: Output<string> := [];
    assert AllRead(readFile, empty, paths, codes);
    var first := Inserted(empty, paths[0], readFile(paths[0]).value);
    assert first == [(paths[0], readFile(paths[0]).value)] by {
      assert FirstMatch(empty, Exactly(paths[0])) == None;
    }
    assert ReadInto(readFile, empty, paths) == ReadInto(readFile, first, paths[1..]);
    assert AllRead(readFile, first, paths[1..], codes);
    assert Keys(codes)[..1] == Keys(first) == [paths[0]];
    if forall i, j :: 0 <= i < j < |paths| ==> paths[i] != paths[j] {
      NewKeysDistinct([], paths);
      assert [] + paths == paths;
    }
  }
}
