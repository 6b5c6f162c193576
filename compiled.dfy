/**
 * What the compilers hand back to the harness, and the errors the harness raises.
 * Compiler output is a dictionary from contract key to artifact; it is kept as a
 * sequence of pairs so that "the first key in iteration order" can be stated.
 */
module Compiled {

  /** An ABI, as the JSON texts of its entries: the harness only passes it along. */
  type Abi = seq<string>

  /** The fields of solc's per-contract output that the harness reads: `bin`, `bin-runtime`, `abi`. */
  datatype Artifact = Artifact(bin: string, binRuntime: string, abi: Abi)

  /** One contract of Vyper's output: `bytecode` and `bytecode_runtime` carry a `0x` prefix. */
  datatype VyperContract = VyperContract(bytecode: string, bytecodeRuntime: string, abi: Abi)

  /** A dictionary from string keys to values, in iteration order. */
  type Output<A> = seq<(string, A)>

  /** The exceptions the harness raises or lets through. */
  datatype Error =
    /** Raised inside a compiler and propagated unchanged. */
    | CompilerError(message: string)
    /** Raised by `open` on a path that cannot be read. */
    | FileError(path: string)
    /** "Can only handle single contracts." */
    | SingleContractsOnly
    /** `StopIteration` from `next(iter(...))` on an output without any contract. */
    | EmptyOutput
    /** "Named contract not found in compiled artifacts." */
    | NamedContractNotFound
    /** "Contract <name> not in source" */
    | ContractNotInSource(contractName: string)
    /** "Multiple contracts available, please select a single contract." */
    | MultipleContractsAvailable
    /** "No contract with name <contract> found in <keys>" */
    | NoContractWithName(contract: string, keys: seq<string>)
    /** `IndexError` from `paths[0]` on an empty list of paths. */
    | NoPaths
    /** `KeyError` from a dictionary lookup. */
    | KeyNotFound(key: string)
    /** `NameError` from a name that was never bound. */
    | NameNotDefined(name: string)

  /** The keys, in iteration order. */
  function Keys<A>(out: Output<A>): (keys: seq<string>)
    ensures |keys| == |out| && forall i :: 0 <= i < |out| ==> keys[i] == out[i].0
  {
    seq(|out|, i requires 0 <= i < |out| => out[i].0)
  }

  /** A dictionary holds each key once. */
  predicate KeysUnique<A>(out: Output<A>) {
    forall i, j :: 0 <= i < j < |out| ==> out[i].0 != out[j].0
  }
}
