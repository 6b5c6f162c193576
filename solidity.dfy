/**
 * The Solidity entry points of the harness. solc itself is not modelled: it is a
 * parameter that maps source text (or a list of file paths) to its output, or to
 * the error it raises, which the harness lets through unchanged.
 */
module SolidityCompile {
  import opened Wrappers
  import opened Compiled
  import opened Selection

  /** `compile_source`: output keys are `"<stdin>:" + contract name`. */
  type SourceCompiler = string -> Result<Output<Artifact>, Error>

  /** `compile_files`: output keys are `path + ":" + contract name`. */
  type FilesCompiler = seq<string> -> Result<Output<Artifact>, Error>

  /** `compile_single_contract`: the artifact of a source that compiles to exactly one contract. */
  function CompileSingleContract(compileSource: SourceCompiler, source: string): (r: Result<Artifact, Error>)
    ensures compileSource(source).Failure? ==> r == Failure(compileSource(source).error)
    ensures r.Success? <==> compileSource(source).Success? && |compileSource(source).value| == 1
    ensures r.Success? ==> r.value == compileSource(source).value[0].1
    ensures compileSource(source).Success? && |compileSource(source).value| > 1 ==>
      r == Failure(SingleContractsOnly)
  {
    match compileSource(source)
    case Failure(e) => Failure(e)
    case Success(out) => SingleSelection(out, SingleContractsOnly)
  }

  /** `compile_named_contract`: compile, then scan the keys for the first one containing `name`. */
  method CompileNamedContract(compileSource: SourceCompiler, source: string, name: string)
    returns (r: Result<Artifact, Error>)
    ensures r == match compileSource(source)
                 case Failure(e) => Failure(e)
                 case Success(out) => NamedSelection(out, name)
  {
    var compiled := compileSource(source);
    if compiled.Failure? {
      return Failure(compiled.error);
    }
    var found := Scan(compiled.value, Substring(name));
    if found.Some? {
      return Success(found.value);
    }
    return Failure(NamedContractNotFound);
  }

  /** `compile_specific_contract`: the entry stored under `"<stdin>:" + contractName`. */
  function CompileSpecificContract(compileSource: SourceCompiler, source: string, contractName: string)
    : (r: Result<Artifact, Error>)
    ensures compileSource(source).Failure? ==> r == Failure(compileSource(source).error)
    ensures r.Success? <==>
      compileSource(source).Success? && StdinKey(contractName) in Keys(compileSource(source).value)
    ensures r.Success? ==> (StdinKey(contractName), r.value) in compileSource(source).value
    ensures compileSource(source).Success? && r.Failure? ==> r.error == ContractNotInSource(contractName)
  {
    match compileSource(source)
    case Failure(e) => Failure(e)
    case Success(out) => SpecificSelection(out, contractName)
  }
}
