/**
 * How the harness picks one artifact out of solc's output: by being the only
 * one, by the first key that contains a name, by the first key that ends in
 * `":" + name`, or by the exact key `"<stdin>:" + name`.
 */
module Selection {
  import opened Wrappers
  import opened Text
  import opened Compiled

  /** The test a key is put to. */
  datatype KeyRule =
    | Substring(name: string)   // `name in key`
    | Suffix(suffix: string)    // `key.endswith(suffix)`
    | Exactly(key: string)      // `key == k`, as in `k in d` and `d[k]`

  predicate Matches(rule: KeyRule, key: string) {
    match rule
    case Substring(name) => Contains(key, name)
    case Suffix(suffix) => EndsWith(key, suffix)
    case Exactly(k) => key == k
  }

  /** Entry `i` is the first, in iteration order, whose key passes `rule`. */
  predicate IsFirstMatch<A>(out: Output<A>, rule: KeyRule, i: int) {
    && 0 <= i < |out|
    && Matches(rule, out[i].0)
    && forall j :: 0 <= j < i ==> !Matches(rule, out[j].0)
  }

  /** No key passes `rule`. */
  predicate NoMatch<A>(out: Output<A>, rule: KeyRule) {
    forall j :: 0 <= j < |out| ==> !Matches(rule, out[j].0)
  }

  /** The position of the first key that passes `rule`, if there is one. */
  function FirstMatch<A>(out: Output<A>, rule: KeyRule): (found: Option<nat>)
    ensures found.Some? ==> IsFirstMatch(out, rule, found.value)
    ensures found.None? ==> NoMatch(out, rule)
  {
    if |out| == 0 then None
    else if Matches(rule, out[0].0) then Some(0)
    else match FirstMatch(out[1..], rule)
      case None => None
      case Some(i) => Some(i + 1)
  }

  /** The first match is the only position that is one. */
  lemma FirstMatchIs<A>(out: Output<A>, rule: KeyRule, i: int)
    requires IsFirstMatch(out, rule, i)
    ensures FirstMatch(out, rule) == Some(i)
  {
  }

  /** The value at the first key that passes `rule`. */
  function Lookup<A>(out: Output<A>, rule: KeyRule): Option<A> {
    match FirstMatch(out, rule)
    case None => None
    case Some(i) => Some(out[i].1)
  }

  /**
   * The `for key in compiled_all: if <test>: return compiled_all[key]` scan:
   * the value at the first key that passes the test, or nothing.
   */
  method Scan<A>(out: Output<A>, rule: KeyRule) returns (found: Option<A>)
    ensures found == Lookup(out, rule)
  {
    var i := 0;
    while i < |out|
      invariant 0 <= i <= |out|
      invariant NoMatch(out[..i], rule)
    {
      if Matches(rule, out[i].0) {
        assert IsFirstMatch(out, rule, i);
        return Some(out[i].1);
      }
      i := i + 1;
    }
    assert out[..i] == out;
    return None;
  }

  /** A key that passes an exact test is the first one that does, when keys are unique. */
  lemma UniqueKeyIsFirst<A>(out: Output<A>, i: int)
    requires KeysUnique(out) && 0 <= i < |out|
    ensures FirstMatch(out, Exactly(out[i].0)) == Some(i)
  {
  }

  /**
   * `compile_single_contract` after compiling, and the `contract is None` case of
   * `compile_single_contract_from_files`: more than one key raises `tooMany`, no
   * key makes `next(iter(...))` raise, and one key gives its artifact.
   */
  function SingleSelection<A>(out: Output<A>, tooMany: Error): (r: Result<A, Error>)
    ensures r.Success? <==> |out| == 1
    ensures r.Success? ==> r.value == out[0].1
    ensures |out| > 1 ==> r == Failure(tooMany)
    ensures |out| == 0 ==> r == Failure(EmptyOutput)
  {
    if |out| > 1 then Failure(tooMany)
    else if |out| == 0 then Failure(EmptyOutput)
    else Success(out[0].1)
  }

  /** `compile_named_contract` after compiling: the first key that contains `name`. */
  function NamedSelection<A>(out: Output<A>, name: string): (r: Result<A, Error>)
    ensures r.Success? <==> exists i :: 0 <= i < |out| && Contains(out[i].0, name)
    ensures r.Success? ==> exists i :: IsFirstMatch(out, Substring(name), i) && r.value == out[i].1
    ensures r.Failure? ==> r.error == NamedContractNotFound
  {
    match Lookup(out, Substring(name))
    case Some(artifact) => Success(artifact)
    case None => Failure(NamedContractNotFound)
  }

  /** The key solc gives a contract compiled from source text. */
  function StdinKey(contractName: string): string {
    "<stdin>:" + contractName
  }

  /** `compile_specific_contract` after compiling: exactly the key `"<stdin>:" + contractName`. */
  function SpecificSelection<A>(out: Output<A>, contractName: string): (r: Result<A, Error>)
    ensures r.Success? <==> exists i :: 0 <= i < |out| && out[i].0 == StdinKey(contractName)
    ensures r.Success? ==> (StdinKey(contractName), r.value) in out
    ensures r.Failure? ==> r.error == ContractNotInSource(contractName)
  {
    match Lookup(out, Exactly(StdinKey(contractName)))
    case Some(artifact) => Success(artifact)
    case None => Failure(ContractNotInSource(contractName))
  }

  /**
   * The Solidity branch of `compile_single_contract_from_files` after compiling:
   * without a contract name the single-contract rule, otherwise the first key
   * ending in `":" + contract`.
   */
  function FileSelection<A>(out: Output<A>, contract: Option<string>): (r: Result<A, Error>)
    ensures contract.None? ==> r == SingleSelection(out, MultipleContractsAvailable)
    ensures contract.Some? ==>
      (r.Success? <==> exists i :: 0 <= i < |out| && EndsWith(out[i].0, ":" + contract.value))
    ensures contract.Some? && r.Success? ==>
      exists i :: IsFirstMatch(out, Suffix(":" + contract.value), i) && r.value == out[i].1
    ensures contract.Some? && r.Failure? ==> r.error == NoContractWithName(contract.value, Keys(out))
  {
    match contract
    case None => SingleSelection(out, MultipleContractsAvailable)
    case Some(name) =>
      match Lookup(out, Suffix(":" + name))
      case Some(artifact) => Success(artifact)
      case None => Failure(NoContractWithName(name, Keys(out)))
  }

  /** With unique keys, the exact lookup returns the one entry stored under the key. */
  lemma SpecificSelectionFindsEntry<A>(out: Output<A>, contractName: string, artifact: A)
    requires KeysUnique(out)
    requires (StdinKey(contractName), artifact) in out
    ensures SpecificSelection(out, contractName) == Success(artifact)
  {
    var i :| 0 <= i < |out| && out[i] == (StdinKey(contractName), artifact);
    UniqueKeyIsFirst(out, i);
  }

  /** Whenever the exact key is present, the substring scan finds some contract too. */
  lemma SpecificImpliesNamed<A>(out: Output<A>, contractName: string)
    requires SpecificSelection(out, contractName).Success?
    ensures NamedSelection(out, contractName).Success?
  {
    var i :| 0 <= i < |out| && out[i].0 == StdinKey(contractName);
    ConcatContains("<stdin>:", contractName);
  }

  /** Whenever a key ends in `":" + contract`, the substring scan finds some contract too. */
  lemma FileSelectionImpliesNamed<A>(out: Output<A>, contract: string)
    requires FileSelection(out, Some(contract)).Success?
    ensures NamedSelection(out, contract).Success?
  {
    var i :| 0 <= i < |out| && EndsWith(out[i].0, ":" + contract);
    EndsWithContains(out[i].0, contract);
  }

  /** On a one-contract output, the single-contract rule and a matching name agree. */
  lemma SingleAgreesWithNamed<A>(out: Output<A>, name: string, tooMany: Error)
    requires |out| == 1 && Contains(out[0].0, name)
    ensures SingleSelection(out, tooMany) == NamedSelection(out, name)
  {
  }

  /**
   * The substring scan is not a name lookup: asking for `Token` returns
   * `MyTokenSale` when that key comes first, and succeeds even when no
   * contract is called `Token` at all.
   */
  lemma NamedSelectionMatchesSubstrings<A>(a: A, b: A)
    ensures NamedSelection([("<stdin>:MyTokenSale", a), ("<stdin>:Token", b)], "Token") == Success(a)
    ensures SpecificSelection([("<stdin>:MyTokenSale", a), ("<stdin>:Token", b)], "Token") == Success(b)
    ensures NamedSelection([("<stdin>:MyTokenSale", a)], "Token") == Success(a)
    ensures SpecificSelection([("<stdin>:MyTokenSale", a)], "Token") == Failure(ContractNotInSource("Token"))
  {
    var key := "<stdin>:MyTokenSale";
    assert key[10..][..5] == "Token";
    assert Contains(key, "Token");
    FirstMatchIs([(key, a), ("<stdin>:Token", b)], Substring("Token"), 0);
    FirstMatchIs([(key, a)], Substring("Token"), 0);
    ExactTokenLookups(a, b);
  }

  /** The exact-lookup half of NamedSelectionMatchesSubstrings. */
  lemma ExactTokenLookups<A>(a: A, b: A)
    ensures SpecificSelection([("<stdin>:MyTokenSale", a), ("<stdin>:Token", b)], "Token") == Success(b)
    ensures SpecificSelection([("<stdin>:MyTokenSale", a)], "Token") == Failure(ContractNotInSource("Token"))
  {
    var key := "<stdin>:MyTokenSale";
    assert StdinKey("Token") == "<stdin>:Token" != key;
    FirstMatchIs([(key, a), ("<stdin>:Token", b)], Exactly(StdinKey("Token")), 1);
  }


}
