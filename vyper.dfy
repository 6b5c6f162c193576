/**
 * The Vyper side of the harness: the `codes` dictionary handed to the compiler,
 * and the conversion of Vyper's output to solc's field names. The compiler itself
 * is a parameter that maps the ordered sources to its output or its error.
 */
module VyperCompile {
  import opened Wrappers
  import opened Text
  import opened Compiled
  import opened Selection

  /** `vyper.compiler.compile_codes`: ordered (name, source) pairs to contracts by name. */
  type VyperCompiler = Output<string> -> Result<map<string, VyperContract>, Error>

  /** The value stored under `key`. */
  function Get<V>(items: Output<V>, key: string): Option<V> {
    Lookup(items, Exactly(key))
  }

  /**
   * `d[key] = value` on an ordered dictionary: an existing key keeps its place
   * and takes the new value; a new key goes last.
   */
  function Inserted<V>(items: Output<V>, key: string, value: V): (r: Output<V>)
    ensures KeysUnique(items) ==> KeysUnique(r)
    ensures Get(r, key) == Some(value)
    ensures forall k :: k != key ==> Get(r, k) == Get(items, k)
    ensures Keys(r) == if key in Keys(items) then Keys(items) else Keys(items) + [key]
  {
    match FirstMatch(items, Exactly(key))
    case Some(i) =>
      ReplacedLookups(items, key, value, i);
      items[i := (key, value)]
    case None =>
      AppendedLookups(items, key, value);
      items + [(key, value)]
  }

  lemma ReplacedLookups<V>(items: Output<V>, key: string, value: V, i: int)
    requires IsFirstMatch(items, Exactly(key), i)
    ensures Keys(items[i := (key, value)]) == Keys(items)
    ensures Get(items[i := (key, value)], key) == Some(value)
    ensures forall k :: k != key ==> Get(items[i := (key, value)], k) == Get(items, k)
  {
    var r := items[i := (key, value)];
    assert Keys(r) == Keys(items);
    FirstMatchIs(r, Exactly(key), i);
    forall k | k != key
      ensures Get(r, k) == Get(items, k)
    {
      var found := FirstMatch(items, Exactly(k));
      if found.Some? {
        FirstMatchIs(r, Exactly(k), found.value);
      }
    }
  }

  lemma AppendedLookups<V>(items: Output<V>, key: string, value: V)
    requires NoMatch(items, Exactly(key))
    ensures key !in Keys(items)
    ensures Keys(items + [(key, value)]) == Keys(items) + [key]
    ensures Get(items + [(key, value)], key) == Some(value)
    ensures forall k :: k != key ==> Get(items + [(key, value)], k) == Get(items, k)
  {
    var r := items + [(key, value)];
    assert Keys(r) == Keys(items) + [key];
    FirstMatchIs(r, Exactly(key), |items|);
    forall k | k != key
      ensures Get(r, k) == Get(items, k)
    {
      var found := FirstMatch(items, Exactly(k));
      if found.Some? {
        FirstMatchIs(r, Exactly(k), found.value);
      }
    }
  }

  /** The `codes` OrderedDict of the harness, filled in place before compiling. */
  class CodeDict {
    var items: Output<string>

    ghost predicate Valid()
      reads this
    {
      KeysUnique(items)
    }

    /** `OrderedDict()` */
    constructor ()
      ensures Valid() && items == []
    {
      items := [];
    }

    /** `codes[key] = value` */
    method Put(key: string, value: string)
      requires Valid()
      modifies this
      ensures Valid()
      ensures items == Inserted(old(items), key, value)
    {
      items := Inserted(items, key, value);
    }
  }

  /** Python's `s[2:]`: the string without its first two characters, or `""` when it is shorter. */
  function DropTwo(s: string): (r: string)
    ensures |r| == if |s| >= 2 then |s| - 2 else 0
    ensures r == s[|s| - |r|..]
  {
    if |s| >= 2 then s[2..] else []
  }

  /**
   * The dictionary `_compile_vyper_sources` builds from one Vyper contract: both
   * bytecodes lose their `0x` prefix and are renamed to `bin` and `bin-runtime`;
   * the ABI is passed through.
   */
  function Normalise(contract: VyperContract): (a: Artifact)
    ensures a.abi == contract.abi
    ensures IsPrefix("0x", contract.bytecode) ==> "0x" + a.bin == contract.bytecode
    ensures IsPrefix("0x", contract.bytecodeRuntime) ==> "0x" + a.binRuntime == contract.bytecodeRuntime
    ensures |a.bin| == if |contract.bytecode| >= 2 then |contract.bytecode| - 2 else 0
    ensures |a.binRuntime| == if |contract.bytecodeRuntime| >= 2 then |contract.bytecodeRuntime| - 2 else 0
    ensures |contract.bytecode| >= 2 ==> a.bin == contract.bytecode[2..]
    ensures |contract.bytecodeRuntime| >= 2 ==> a.binRuntime == contract.bytecodeRuntime[2..]
  {
    Artifact(DropTwo(contract.bytecode), DropTwo(contract.bytecodeRuntime), contract.abi)
  }

  /** The Vyper contract an artifact in solc's shape came from: both bytecodes regain `0x`. */
  function Denormalise(a: Artifact): VyperContract {
    VyperContract("0x" + a.bin, "0x" + a.binRuntime, a.abi)
  }

  /** Normalising loses nothing: every artifact comes from exactly one prefixed contract. */
  lemma NormaliseDenormalise(a: Artifact)
    ensures Normalise(Denormalise(a)) == a
  {
    assert ("0x" + a.bin)[2..] == a.bin;
    assert ("0x" + a.binRuntime)[2..] == a.binRuntime;
  }

  lemma DenormaliseNormalise(contract: VyperContract)
    requires IsPrefix("0x", contract.bytecode) && IsPrefix("0x", contract.bytecodeRuntime)
    ensures Denormalise(Normalise(contract)) == contract
  {
  }

  /**
   * `_compile_vyper_sources`: compile all `codes`, then take the contract stored
   * under `name` (a `KeyError` when there is none) in solc's field names.
   */
  function CompileVyperSources(compile: VyperCompiler, codes: Output<string>, name: string)
    : (r: Result<Artifact, Error>)
    ensures compile(codes).Failure? ==> r == Failure(compile(codes).error)
    ensures r.Success? <==> compile(codes).Success? && name in compile(codes).value
    ensures r.Success? ==> r.value == Normalise(compile(codes).value[name])
    ensures compile(codes).Success? && name !in compile(codes).value ==> r == Failure(KeyNotFound(name))
  {
    match compile(codes)
    case Failure(e) => Failure(e)
    case Success(output) =>
      if name in output then Success(Normalise(output[name])) else Failure(KeyNotFound(name))
  }

  /** `compile_specific_vyper_contract`: the source alone, under the name `main`. */
  method CompileSpecificVyperContract(compile: VyperCompiler, source: string) returns (r: Result<Artifact, Error>)
    ensures r == CompileVyperSources(compile, [("main", source)], "main")
  {
    var codes := new CodeDict();
    codes.Put("main", source);
    assert FirstMatch<string>([], Exactly("main")) == None;
    assert codes.items == [("main", source)];
    r := CompileVyperSources(compile, codes.items, "main");
  }

  /** `open(filename).read()`: the content of a file, or the error `open` raises. */
  type FileReader = string -> Result<string, Error>

  /** `e` is the error of the first path, in order, whose read fails. */
  ghost predicate FirstUnreadable(readFile: FileReader, paths: seq<string>, e: Error) {
    exists i :: 0 <= i < |paths| && readFile(paths[i]) == Failure(e)
                && forall j :: 0 <= j < i ==> readFile(paths[j]).Success?
  }

  /**
   * `out` is `codes` after every path was read into it: each path holds its
   * file's content, other keys keep their values, the keys of `codes` stay in
   * front, no key comes from elsewhere and the keys are in assignment order.
   */
  ghost predicate AllRead(readFile: FileReader, codes: Output<string>, paths: seq<string>, out: Output<string>) {
    && (KeysUnique(codes) ==> KeysUnique(out))
    && (forall p :: p in paths ==> readFile(p).Success? && Get(out, p) == Some(readFile(p).value))
    && (forall k :: k !in paths ==> Get(out, k) == Get(codes, k))
    && |codes| <= |out| && Keys(out)[..|codes|] == Keys(codes)
    && (forall k :: k in Keys(out) ==> k in Keys(codes) || k in paths)
    && Keys(out) == NewKeys(Keys(codes), paths)
  }

  /**
   * The keys of an ordered dictionary after assigning to `paths` in order: a
   * key already present keeps its place, a new one goes last, and a repeated
   * path is placed at its first occurrence.
   */
  function NewKeys(known: seq<string>, paths: seq<string>): seq<string>
    decreases |paths|
  {
    if paths == [] then known
    else if paths[0] in known then NewKeys(known, paths[1..])
    else NewKeys(known + [paths[0]], paths[1..])
  }

  /** Distinct paths, none of them already a key, are appended in exactly their order. */
  lemma {:induction false} NewKeysDistinct(known: seq<string>, paths: seq<string>)
    requires forall i, j :: 0 <= i < j < |paths| ==> paths[i] != paths[j]
    requires forall p :: p in paths ==> p !in known
    ensures NewKeys(known, paths) == known + paths
    decreases |paths|
  {
    if paths != [] {
      assert paths[0] in paths;
      assert forall p :: p in paths[1..] ==> p !in known + [paths[0]] by {
        forall p | p in paths[1..]
          ensures p !in known + [paths[0]]
        {
          var j :| 0 <= j < |paths[1..]| && paths[1..][j] == p;
          assert paths[j + 1] == p;
        }
      }
      NewKeysDistinct(known + [paths[0]], paths[1..]);
      assert known + [paths[0]] + paths[1..] == known + paths;
    }
  }

  /**
   * The loop `for filename in paths: codes[filename] = <content>`, from `codes` on:
   * the first unreadable path stops it with its error; otherwise every path holds
   * its file's content, the other keys keep their values, the existing keys
   * keep their places in front and new keys follow in the order of `paths`.
   */
  function ReadInto(readFile: FileReader, codes: Output<string>, paths: seq<string>)
    : (r: Result<Output<string>, Error>)
    ensures r.Failure? ==> FirstUnreadable(readFile, paths, r.error)
    ensures r.Success? ==> AllRead(readFile, codes, paths, r.value)
    decreases |paths|
  {
    if paths == [] then
      assert Keys(codes)[..|codes|] == Keys(codes);
      Success(codes)
    else
      match readFile(paths[0])
      case Failure(e) =>
        assert FirstUnreadable(readFile, paths, e) by {
          assert readFile(paths[0]) == Failure(e);
        }
        Failure(e)
      case Success(content) =>
        var r := ReadInto(readFile, Inserted(codes, paths[0], content), paths[1..]);
        ReadStep(readFile, codes, paths, content, r);
        r
  }

  /** One turn of the loop: reading `paths[0]` first, then the rest, reads all of `paths`. */
  lemma ReadStep(readFile: FileReader, codes: Output<string>, paths: seq<string>, content: string,
                 r: Result<Output<string>, Error>)
    requires paths != [] && readFile(paths[0]) == Success(content)
    requires r.Failure? ==> FirstUnreadable(readFile, paths[1..], r.error)
    requires r.Success? ==> AllRead(readFile, Inserted(codes, paths[0], content), paths[1..], r.value)
    ensures r.Failure? ==> FirstUnreadable(readFile, paths, r.error)
    ensures r.Success? ==> AllRead(readFile, codes, paths, r.value)
  {
    if r.Failure? {
      ReadStepFails(readFile, paths, r.error);
    } else {
      var ins := Inserted(codes, paths[0], content);
      ReadStepPaths(readFile, codes, paths, content, r.value);
      ReadStepOthers(readFile, codes, paths, content, r.value);
      ReadStepKeys(codes, ins, r.value);
      ReadStepOrigin(codes, paths, content, r.value);
      ReadStepOrder(codes, paths, content, r.value);
    }
  }

  lemma ReadStepFails(readFile: FileReader, paths: seq<string>, e: Error)
    requires paths != [] && readFile(paths[0]).Success?
    requires FirstUnreadable(readFile, paths[1..], e)
    ensures FirstUnreadable(readFile, paths, e)
  {
    var i :| 0 <= i < |paths[1..]| && readFile(paths[1..][i]) == Failure(e)
             && forall j :: 0 <= j < i ==> readFile(paths[1..][j]).Success?;
    assert readFile(paths[i + 1]) == Failure(e);
    forall j | 0 <= j < i + 1
      ensures readFile(paths[j]).Success?
    {
      if j > 0 {
        assert paths[j] == paths[1..][j - 1];
      }
    }
  }

  lemma ReadStepPaths(readFile: FileReader, codes: Output<string>, paths: seq<string>, content: string,
                      out: Output<string>)
    requires paths != [] && readFile(paths[0]) == Success(content)
    requires AllRead(readFile, Inserted(codes, paths[0], content), paths[1..], out)
    ensures KeysUnique(codes) ==> KeysUnique(out)
    ensures forall p :: p in paths ==> readFile(p).Success? && Get(out, p) == Some(readFile(p).value)
  {
    forall p | p in paths
      ensures readFile(p).Success? && Get(out, p) == Some(readFile(p).value)
    {
      if p !in paths[1..] {
        assert p == paths[0];
      }
    }
  }

  lemma ReadStepOthers(readFile: FileReader, codes: Output<string>, paths: seq<string>, content: string,
                       out: Output<string>)
    requires paths != []
    requires AllRead(readFile, Inserted(codes, paths[0], content), paths[1..], out)
    ensures forall k :: k !in paths ==> Get(out, k) == Get(codes, k)
  {
    forall k | k !in paths
      ensures Get(out, k) == Get(codes, k)
    {
      assert k != paths[0];
      assert k !in paths[1..];
    }
  }

  lemma ReadStepKeys(codes: Output<string>, ins: Output<string>, out: Output<string>)
    requires |codes| <= |ins| && Keys(ins)[..|codes|] == Keys(codes)
    requires |ins| <= |out| && Keys(out)[..|ins|] == Keys(ins)
    ensures |codes| <= |out| && Keys(out)[..|codes|] == Keys(codes)
  {
    assert Keys(out)[..|codes|] == Keys(out)[..|ins|][..|codes|];
  }

  lemma ReadStepOrigin(codes: Output<string>, paths: seq<string>, content: string, out: Output<string>)
    requires paths != []
    requires forall k :: k in Keys(out) ==> k in Keys(Inserted(codes, paths[0], content)) || k in paths[1..]
    ensures forall k :: k in Keys(out) ==> k in Keys(codes) || k in paths
  {
    assert paths[0] in paths;
    forall k | k in Keys(out)
      ensures k in Keys(codes) || k in paths
    {
      if k in paths[1..] {
        assert k in paths;
      }
    }
  }

  lemma ReadStepOrder(codes: Output<string>, paths: seq<string>, content: string, out: Output<string>)
    requires paths != []
    requires Keys(out) == NewKeys(Keys(Inserted(codes, paths[0], content)), paths[1..])
    ensures Keys(out) == NewKeys(Keys(codes), paths)
  {
  }
}
