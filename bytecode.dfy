/**
 * `get_bytecode`: the `bin` field of an artifact, cut at the first character
 * outside `[a-f0-9]` (solc may append non-hex metadata). Upper-case hex digits
 * are outside that class, so they end the bytecode as well.
 */
module Bytecode {
  import opened Wrappers
  import opened Text
  import opened Compiled

  /** Membership in the regular-expression class `[a-f0-9]`. */
  predicate IsLowerHexDigit(c: char) {
    '0' <= c <= '9' || 'a' <= c <= 'f'
  }

  predicate AllLowerHex(s: string) {
    forall i :: 0 <= i < |s| ==> IsLowerHexDigit(s[i])
  }

  /**
   * Where `re.search("[^a-f0-9]", s)` matches: the position of the first character
   * outside the class, or `|s|` when there is none.
   */
  function FirstNonHex(s: string): (n: nat)
    ensures n <= |s|
    ensures AllLowerHex(s[..n])
    ensures n < |s| ==> !IsLowerHexDigit(s[n])
  {
    if s == [] || !IsLowerHexDigit(s[0]) then 0
    else
      var n := 1 + FirstNonHex(s[1..]);
      assert s[..n] == [s[0]] + s[1..][..n - 1];
      n
  }

  /** The bytecode of `compiled`, without the trailing non-hex part. */
  function GetBytecode(compiled: Artifact): (r: string)
    ensures IsPrefix(r, compiled.bin)
    ensures AllLowerHex(r)
    ensures |r| < |compiled.bin| ==> !IsLowerHexDigit(compiled.bin[|r|])
    ensures AllLowerHex(compiled.bin) ==> r == compiled.bin
  {
    compiled.bin[..FirstNonHex(compiled.bin)]
  }

  /**
   * `get_bytecode` as written: `re` is used but the module never imports it, so
   * the call raises `NameError` before it looks at the bytecode.
   */
  function GetBytecodeAsWritten(compiled: Artifact): (r: Result<string, Error>)
    ensures r.Failure?
  {
    Failure(NameNotDefined("re"))
  }

  /** An artifact whose bytecode is all hex: as written it raises, as intended it is kept whole. */
  lemma GetBytecodeAsWrittenRaises()
    ensures GetBytecodeAsWritten(Artifact("6080", "", [])) == Failure(NameNotDefined("re"))
    ensures GetBytecode(Artifact("6080", "", [])) == "6080"
  {
    assert AllLowerHex("6080");
  }

  /**
   * Three facts pin the result down: any prefix of the raw bytecode that is all
   * `[a-f0-9]` and is either the whole string or followed by a character outside
   * the class is the result of `GetBytecode`.
   */
  lemma GetBytecodeUnique(compiled: Artifact, r: string)
    requires IsPrefix(r, compiled.bin) && AllLowerHex(r)
    requires |r| < |compiled.bin| ==> !IsLowerHexDigit(compiled.bin[|r|])
    ensures r == GetBytecode(compiled)
  {
  }

  /** Cleaning an already cleaned bytecode changes nothing. */
  lemma GetBytecodeIdempotent(compiled: Artifact)
    ensures GetBytecode(compiled.(bin := GetBytecode(compiled))) == GetBytecode(compiled)
  {
  }

  /** Upper-case hex digits end the bytecode: `60AB` gives `60`. */
  lemma GetBytecodeCutsAtUpperCase(runtime: string, abi: Abi)
    ensures GetBytecode(Artifact("60AB", runtime, abi)) == "60"
  {
    var bin := "60AB";
    assert !IsLowerHexDigit(bin[2]);
    assert AllLowerHex(bin[..2]);
    GetBytecodeUnique(Artifact(bin, runtime, abi), "60");
  }
}
