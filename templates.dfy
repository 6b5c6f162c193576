/**
 * The contract templates the `check_*` helpers of the harness wrap a
 * documentation snippet in before compiling it. Each builder is the
 * f-string of its helper, written as its lines joined by newlines; each
 * lemma states the line structure of the generated source: the fixed
 * template lines, and the snippet's own lines in between, verbatim or
 * behind the constructor-body indentation.
 */
module Templates {
  import opened Text

  /** Solidity constructor bodies are indented by 8 spaces, Vyper ones by 4. */
  const SolidityBodyIndent: nat := 8
  const VyperBodyIndent: nat := 4
  /** Contract-level Solidity declarations sit behind 4 spaces. */
  const MemberIndent: nat := 4

  const ContractOpen := "contract DeployOnly {"
  const ConstructorOpen := "    constructor() public {"
  const BlockClose := "    }"
  const ContractClose := "}"
  const PublicDecorator := "@public"
  const InitHeader := "def __init__():"
  const InitPass := "    pass"

  /** `check_local_s`: the snippet as the body of the constructor of an empty contract. */
  function LocalSolidityCode(snippet: string): string {
    ContractOpen + "\n"
    + ConstructorOpen + "\n"
    + (Spaces(SolidityBodyIndent) + Indent(snippet, SolidityBodyIndent)) + "\n"
    + BlockClose + "\n"
    + ContractClose + "\n"
  }

  /** `check_local_v`: the snippet as the body of `__init__`. */
  function LocalVyperCode(snippet: string): string {
    "\n"
    + PublicDecorator + "\n"
    + InitHeader + "\n"
    + (Spaces(VyperBodyIndent) + Indent(snippet, VyperBodyIndent)) + "\n"
  }

  /** `check_global_s`: the snippet verbatim in the contract body, before an empty constructor. */
  function GlobalSolidityCode(snippet: string): string {
    ContractOpen + "\n"
    + (Spaces(MemberIndent) + snippet) + "\n"
    + ConstructorOpen + "\n"
    + BlockClose + "\n"
    + ContractClose + "\n"
  }

  /** `check_global_constructor_s`: both snippets verbatim; the constructor one is not re-indented. */
  function GlobalConstructorSolidityCode(globalSnippet: string, constructorSnippet: string): string {
    ContractOpen + "\n"
    + (Spaces(MemberIndent) + globalSnippet) + "\n"
    + ConstructorOpen + "\n"
    + (Spaces(SolidityBodyIndent) + constructorSnippet) + "\n"
    + BlockClose + "\n"
    + ContractClose + "\n"
  }

  /** `check_global_v`: the snippet at module level, before an `__init__` that does nothing. */
  function GlobalVyperCode(snippet: string): string {
    "\n"
    + snippet + "\n"
    + "\n"
    + PublicDecorator + "\n"
    + InitHeader + "\n"
    + InitPass + "\n"
  }

  /** `check_s`: a verbatim contract-level part and an indented constructor body. */
  function SolidityCode(globalSnippet: string, localSnippet: string): string {
    ContractOpen + "\n"
    + (Spaces(MemberIndent) + globalSnippet) + "\n"
    + ConstructorOpen + "\n"
    + (Spaces(SolidityBodyIndent) + Indent(localSnippet, SolidityBodyIndent)) + "\n"
    + BlockClose + "\n"
    + ContractClose + "\n"
  }

  /** `check_v`: a verbatim module-level part and an indented `__init__` body. */
  function VyperCode(globalSnippet: string, localSnippet: string): string {
    "\n"
    + globalSnippet + "\n"
    + "\n"
    + PublicDecorator + "\n"
    + InitHeader + "\n"
    + (Spaces(VyperBodyIndent) + Indent(localSnippet, VyperBodyIndent)) + "\n"
  }

  /*
   * The lemmas below take the generated source apart from the right, one
   * newline at a time, with SplitAppend; every step matches the way the
   * builder above associates its `+`.
   */

  lemma TemplateLinesHaveNoNewline()
    ensures '\n' !in ContractOpen && '\n' !in ConstructorOpen
    ensures '\n' !in BlockClose && '\n' !in ContractClose
    ensures '\n' !in PublicDecorator && '\n' !in InitHeader && '\n' !in InitPass
  {
  }

  /** `prefix`, a newline, then a template line. */
  lemma SplitThenLine(prefix: string, line: string)
    requires '\n' !in line
    ensures Split(prefix + "\n" + line) == Split(prefix) + [line]
  {
    SplitAppend(prefix, line);
    SplitLine(line);
  }

  /** `prefix` ending the source with a newline. */
  lemma SplitFinalNewline(prefix: string)
    ensures Split(prefix + "\n") == Split(prefix) + [""]
  {
    assert prefix + "\n" == prefix + "\n" + "";
    SplitAppend(prefix, "");
    SplitLine("");
  }

  /** The end of every Solidity template, after the constructor's last line. */
  lemma SolidityEndLines(prefix: string)
    ensures Split(prefix + "\n" + BlockClose + "\n" + ContractClose + "\n")
         == Split(prefix) + [BlockClose, ContractClose, ""]
  {
    TemplateLinesHaveNoNewline();
    SplitThenLine(prefix, BlockClose);
    SplitThenLine(prefix + "\n" + BlockClose, ContractClose);
    SplitFinalNewline(prefix + "\n" + BlockClose + "\n" + ContractClose);
  }

  /** The start of the Solidity templates with a contract-level snippet behind 4 spaces. */
  lemma MemberHeadLines(globalSnippet: string)
    ensures Split(ContractOpen + "\n" + (Spaces(MemberIndent) + globalSnippet) + "\n" + ConstructorOpen)
         == [ContractOpen] + PrefixFirst(Split(globalSnippet), Spaces(4)) + [ConstructorOpen]
  {
    TemplateLinesHaveNoNewline();
    SplitLine(ContractOpen);
    SplitVerbatim(Spaces(4), globalSnippet);
    SplitAppend(ContractOpen, Spaces(MemberIndent) + globalSnippet);
    SplitThenLine(ContractOpen + "\n" + (Spaces(MemberIndent) + globalSnippet), ConstructorOpen);
  }

  /** The start of the Vyper templates after a module-level part: `@public` and the `__init__` header. */
  lemma InitHeadLines(prefix: string)
    ensures Split(prefix + "\n" + PublicDecorator + "\n" + InitHeader)
         == Split(prefix) + [PublicDecorator, InitHeader]
  {
    TemplateLinesHaveNoNewline();
    SplitThenLine(prefix, PublicDecorator);
    SplitThenLine(prefix + "\n" + PublicDecorator, InitHeader);
  }

  /** The module-level part of the Vyper templates: an empty line, the snippet, an empty line. */
  lemma VyperGlobalLines(globalSnippet: string)
    ensures Split("\n" + globalSnippet + "\n") == [""] + Split(globalSnippet) + [""]
  {
    SplitLine("");
    assert "\n" + globalSnippet == "" + "\n" + globalSnippet;
    SplitAppend("", globalSnippet);
    SplitFinalNewline("\n" + globalSnippet);
  }

  /** The first two lines of `check_local_s`. */
  lemma ConstructorHeadLines()
    ensures Split(ContractOpen + "\n" + ConstructorOpen) == [ContractOpen, ConstructorOpen]
  {
    TemplateLinesHaveNoNewline();
    SplitLine(ContractOpen);
    SplitThenLine(ContractOpen, ConstructorOpen);
  }

  /** An indented constructor body followed by the end of a Solidity template. */
  lemma IndentedBodyEndLines(head: string, snippet: string)
    ensures Split(head + "\n" + (Spaces(SolidityBodyIndent) + Indent(snippet, SolidityBodyIndent))
                  + "\n" + BlockClose + "\n" + ContractClose + "\n")
         == Split(head) + IndentLines(Split(snippet), Spaces(8)) + [BlockClose, ContractClose, ""]
  {
    var body := Spaces(SolidityBodyIndent) + Indent(snippet, SolidityBodyIndent);
    IndentedBlockLines(snippet, 8);
    SplitAppend(head, body);
    SolidityEndLines(head + "\n" + body);
  }

  /**
   * The constructor of `check_local_s`: every snippet line becomes one line
   * of the constructor body, behind 8 spaces, between the template lines.
   */
  lemma LocalSolidityLines(snippet: string)
    ensures Split(LocalSolidityCode(snippet))
         == [ContractOpen, ConstructorOpen]
            + IndentLines(Split(snippet), Spaces(8))
            + [BlockClose, ContractClose, ""]
  {
    ConstructorHeadLines();
    IndentedBodyEndLines(ContractOpen + "\n" + ConstructorOpen, snippet);
  }

  /** The first three lines of `check_local_v`. */
  lemma InitOnlyHeadLines()
    ensures Split("\n" + PublicDecorator + "\n" + InitHeader) == ["", PublicDecorator, InitHeader]
  {
    SplitLine("");
    assert "\n" + PublicDecorator == "" + "\n" + PublicDecorator;
    InitHeadLines("");
  }

  /** An indented `__init__` body ending a Vyper template. */
  lemma IndentedInitEndLines(head: string, snippet: string)
    ensures Split(head + "\n" + (Spaces(VyperBodyIndent) + Indent(snippet, VyperBodyIndent)) + "\n")
         == Split(head) + IndentLines(Split(snippet), Spaces(4)) + [""]
  {
    var body := Spaces(VyperBodyIndent) + Indent(snippet, VyperBodyIndent);
    IndentedBlockLines(snippet, 4);
    SplitAppend(head, body);
    SplitFinalNewline(head + "\n" + body);
  }

  /** An `__init__` that does nothing, ending `check_global_v`. */
  lemma PassInitEndLines(head: string)
    ensures Split(head + "\n" + PublicDecorator + "\n" + InitHeader + "\n" + InitPass + "\n")
         == Split(head) + [PublicDecorator, InitHeader, InitPass, ""]
  {
    TemplateLinesHaveNoNewline();
    InitHeadLines(head);
    SplitThenLine(head + "\n" + PublicDecorator + "\n" + InitHeader, InitPass);
    SplitFinalNewline(head + "\n" + PublicDecorator + "\n" + InitHeader + "\n" + InitPass);
  }

  /** The `__init__` of `check_local_v`: every snippet line is one body line behind 4 spaces. */
  lemma LocalVyperLines(snippet: string)
    ensures Split(LocalVyperCode(snippet))
         == ["", PublicDecorator, InitHeader]
            + IndentLines(Split(snippet), Spaces(4))
            + [""]
  {
    InitOnlyHeadLines();
    IndentedInitEndLines("\n" + PublicDecorator + "\n" + InitHeader, snippet);
  }

  /** `check_global_s`: the snippet's first line behind 4 spaces, its other lines as written. */
  lemma GlobalSolidityLines(snippet: string)
    ensures Split(GlobalSolidityCode(snippet))
         == [ContractOpen]
            + PrefixFirst(Split(snippet), Spaces(4))
            + [ConstructorOpen, BlockClose, ContractClose, ""]
  {
    MemberHeadLines(snippet);
    SolidityEndLines(ContractOpen + "\n" + (Spaces(MemberIndent) + snippet) + "\n" + ConstructorOpen);
  }

  /**
   * `check_global_constructor_s`: both snippets keep their own line breaks;
   * only the first line of each is placed behind the template's indentation.
   */
  lemma GlobalConstructorSolidityLines(globalSnippet: string, constructorSnippet: string)
    ensures Split(GlobalConstructorSolidityCode(globalSnippet, constructorSnippet))
         == [ContractOpen]
            + PrefixFirst(Split(globalSnippet), Spaces(4))
            + [ConstructorOpen]
            + PrefixFirst(Split(constructorSnippet), Spaces(8))
            + [BlockClose, ContractClose, ""]
  {
    var head := ContractOpen + "\n" + (Spaces(MemberIndent) + globalSnippet) + "\n" + ConstructorOpen;
    var body := Spaces(SolidityBodyIndent) + constructorSnippet;
    MemberHeadLines(globalSnippet);
    SplitVerbatim(Spaces(8), constructorSnippet);
    SplitAppend(head, body);
    SolidityEndLines(head + "\n" + body);
  }

  /** `check_global_v`: the snippet's lines unchanged, after one empty line. */
  lemma GlobalVyperLines(snippet: string)
    ensures Split(GlobalVyperCode(snippet))
         == [""] + Split(snippet) + ["", PublicDecorator, InitHeader, InitPass, ""]
  {
    VyperGlobalLines(snippet);
    PassInitEndLines("\n" + snippet + "\n");
  }

  /** `check_s`: the contract-level snippet as in `check_global_s`, the local one as in `check_local_s`. */
  lemma SolidityLines(globalSnippet: string, localSnippet: string)
    ensures Split(SolidityCode(globalSnippet, localSnippet))
         == [ContractOpen]
            + PrefixFirst(Split(globalSnippet), Spaces(4))
            + [ConstructorOpen]
            + IndentLines(Split(localSnippet), Spaces(8))
            + [BlockClose, ContractClose, ""]
  {
    MemberHeadLines(globalSnippet);
    IndentedBodyEndLines(ContractOpen + "\n" + (Spaces(MemberIndent) + globalSnippet) + "\n" + ConstructorOpen, localSnippet);
  }

  /** The module-level part of `check_v` and the `__init__` header after it. */
  lemma ModuleHeadLines(globalSnippet: string)
    ensures Split("\n" + globalSnippet + "\n" + "\n" + PublicDecorator + "\n" + InitHeader)
         == [""] + Split(globalSnippet) + ["", PublicDecorator, InitHeader]
  {
    VyperGlobalLines(globalSnippet);
    InitHeadLines("\n" + globalSnippet + "\n");
  }

  /** `check_v`: the module-level snippet as in `check_global_v`, the local one as in `check_local_v`. */
  lemma VyperLines(globalSnippet: string, localSnippet: string)
    ensures Split(VyperCode(globalSnippet, localSnippet))
         == [""] + Split(globalSnippet) + ["", PublicDecorator, InitHeader]
            + IndentLines(Split(localSnippet), Spaces(4))
            + [""]
  {
    ModuleHeadLines(globalSnippet);
    IndentedInitEndLines("\n" + globalSnippet + "\n" + "\n" + PublicDecorator + "\n" + InitHeader, localSnippet);
  }
}
