/**
 * The string operations the harness applies to documentation snippets:
 * Python's `str.split("\n")`, `sep.join(parts)`, `" " * k`, `needle in s`,
 * `s.endswith(suffix)` and `s.replace(old, "\n")`, on strings as `seq<char>`.
 */
module Text {

  /** `" " * k` */
  function Spaces(k: nat): (r: string)
    ensures |r| == k && forall i :: 0 <= i < k ==> r[i] == ' '
  {
    seq(k, _ => ' ')
  }

  predicate IsPrefix(prefix: string, s: string) {
    |prefix| <= |s| && s[..|prefix|] == prefix
  }

  /** Python's `needle in haystack` on strings: some slice of `haystack` equals `needle`. */
  predicate Contains(haystack: string, needle: string) {
    exists i | 0 <= i <= |haystack| :: IsPrefix(needle, haystack[i..])
  }

  /** Python's `s.endswith(suffix)`. */
  predicate EndsWith(s: string, suffix: string) {
    |suffix| <= |s| && s[|s| - |suffix|..] == suffix
  }

  /** A string that ends with `":" + name` has `name` as a substring. */
  lemma EndsWithContains(s: string, name: string)
    requires EndsWith(s, ":" + name)
    ensures Contains(s, name)
  {
    var i := |s| - |name|;
    assert s[i..][..|name|] == name;
  }

  /** A string always contains its own suffix after the separator it was built with. */
  lemma ConcatContains(prefix: string, name: string)
    ensures Contains(prefix + name, name)
  {
    var s := prefix + name;
    assert s[|prefix|..][..|name|] == name;
  }

  function NewlineCount(s: string): nat {
    if s == [] then 0 else (if s[0] == '\n' then 1 else 0) + NewlineCount(s[1..])
  }

  lemma {:induction false} NewlineCountAppend(a: string, b: string)
    ensures NewlineCount(a + b) == NewlineCount(a) + NewlineCount(b)
  {
    if a == [] {
      assert a + b == b;
    } else {
      assert (a + b)[1..] == a[1..] + b;
      NewlineCountAppend(a[1..], b);
    }
  }

  lemma {:induction false} NewlineCountNone(s: string)
    requires '\n' !in s
    ensures NewlineCount(s) == 0
  {
    if s != [] {
      assert s[0] != '\n';
      NewlineCountNone(s[1..]);
    }
  }

  /**
   * Python's `s.split("\n")`: the pieces between newlines, in order. There is
   * always one more piece than there are newlines, so the empty string gives [""].
   */
  function Split(s: string): (lines: seq<string>)
    ensures |lines| == NewlineCount(s) + 1
    ensures forall i :: 0 <= i < |lines| ==> '\n' !in lines[i]
    decreases |s|
  {
    if s == [] then [[]]
    else if s[0] == '\n' then [[]] + Split(s[1..])
    else
      var rest := Split(s[1..]);
      assert '\n' !in rest[0];
      [[s[0]] + rest[0]] + rest[1..]
  }

  /** Python's `sep.join(parts)`. */
  function Join(sep: string, parts: seq<string>): string {
    if |parts| == 0 then []
    else if |parts| == 1 then parts[0]
    else parts[0] + sep + Join(sep, parts[1..])
  }

  /**
   * Every newline of `s` replaced by `sep`, character by character: the reference
   * definition that `Join(sep, Split(s))` is proved equal to.
   */
  function Expand(s: string, sep: string): string {
    if s == [] then [] else (if s[0] == '\n' then sep else [s[0]]) + Expand(s[1..], sep)
  }

  /** The separator the harness joins snippet lines with: a newline and `k` spaces. */
  function IndentSeparator(k: nat): (sep: string)
    ensures |sep| == k + 1 && sep[0] == '\n' && '\n' !in sep[1..]
  {
    "\n" + Spaces(k)
  }

  /** `("\n" + " " * k).join(snippet.split("\n"))` */
  function Indent(snippet: string, k: nat): string {
    Join(IndentSeparator(k), Split(snippet))
  }

  /** Python's `t.replace("\n" + " " * k, "\n")`: leftmost, non-overlapping replacement. */
  function Dedent(t: string, k: nat): string
    decreases |t|
  {
    var sep := IndentSeparator(k);
    if t == [] then []
    else if IsPrefix(sep, t) then "\n" + Dedent(t[|sep|..], k)
    else [t[0]] + Dedent(t[1..], k)
  }

  /** Every line prefixed with `prefix`. */
  function IndentLines(lines: seq<string>, prefix: string): (r: seq<string>)
    ensures |r| == |lines| && forall i :: 0 <= i < |lines| ==> r[i] == prefix + lines[i]
  {
    seq(|lines|, i requires 0 <= i < |lines| => prefix + lines[i])
  }

  lemma JoinCons(sep: string, c: char, first: string, rest: seq<string>)
    ensures Join(sep, [[c] + first] + rest) == [c] + Join(sep, [first] + rest)
  {
    var parts := [[c] + first] + rest;
    if |rest| > 0 {
      assert parts[1..] == rest;
      assert ([first] + rest)[1..] == rest;
    }
  }

  /** Joining the pieces of a split with `sep` replaces each newline by `sep`. */
  lemma {:induction false} JoinSplit(s: string, sep: string)
    ensures Join(sep, Split(s)) == Expand(s, sep)
    decreases |s|
  {
    if s == [] {
    } else if s[0] == '\n' {
      var rest := Split(s[1..]);
      assert ([[]] + rest)[1..] == rest;
      JoinSplit(s[1..], sep);
    } else {
      var rest := Split(s[1..]);
      JoinCons(sep, s[0], rest[0], rest[1..]);
      assert [rest[0]] + rest[1..] == rest;
      JoinSplit(s[1..], sep);
    }
  }

  lemma {:induction false} ExpandNewline(s: string)
    ensures Expand(s, "\n") == s
  {
    if s != [] {
      ExpandNewline(s[1..]);
      assert s == [s[0]] + s[1..];
    }
  }

  /** `"\n".join(s.split("\n")) == s`. */
  lemma SplitJoinRoundTrip(s: string)
    ensures Join("\n", Split(s)) == s
  {
    JoinSplit(s, "\n");
    ExpandNewline(s);
  }

  lemma {:induction false} DedentExpand(s: string, k: nat)
    ensures Dedent(Expand(s, IndentSeparator(k)), k) == s
    decreases |s|
  {
    var sep := IndentSeparator(k);
    if s != [] {
      var tail := Expand(s[1..], sep);
      DedentExpand(s[1..], k);
      if s[0] == '\n' {
        assert (sep + tail)[..|sep|] == sep;
        assert (sep + tail)[|sep|..] == tail;
      } else {
        assert ([s[0]] + tail)[0] != sep[0];
        assert ([s[0]] + tail)[1..] == tail;
      }
    }
  }

  /** Undoing the indentation with `replace` gives back the snippet. */
  lemma IndentRoundTrip(snippet: string, k: nat)
    ensures Dedent(Indent(snippet, k), k) == snippet
  {
    JoinSplit(snippet, IndentSeparator(k));
    DedentExpand(snippet, k);
  }

  lemma {:induction false} ExpandNewlineCount(s: string, k: nat)
    ensures NewlineCount(Expand(s, IndentSeparator(k))) == NewlineCount(s)
  {
    var sep := IndentSeparator(k);
    if s != [] {
      ExpandNewlineCount(s[1..], k);
      var head := if s[0] == '\n' then sep else [s[0]];
      NewlineCountAppend(head, Expand(s[1..], sep));
      if s[0] == '\n' {
        NewlineCountAppend("\n", sep[1..]);
        assert sep == "\n" + sep[1..];
        NewlineCountNone(sep[1..]);
      }
    }
  }

  lemma {:induction false} ExpandLength(s: string, k: nat)
    ensures |Expand(s, IndentSeparator(k))| == |s| + k * NewlineCount(s)
  {
    if s != [] {
      ExpandLength(s[1..], k);
      if s[0] == '\n' {
        assert k * NewlineCount(s) == k + k * NewlineCount(s[1..]);
      }
    }
  }

  /** Indentation adds no line and no line break; it adds `k` characters per line break. */
  lemma IndentCounts(snippet: string, k: nat)
    ensures NewlineCount(Indent(snippet, k)) == NewlineCount(snippet)
    ensures |Indent(snippet, k)| == |snippet| + k * NewlineCount(snippet)
  {
    JoinSplit(snippet, IndentSeparator(k));
    ExpandNewlineCount(snippet, k);
    ExpandLength(snippet, k);
  }

  lemma {:induction false} SplitLine(s: string)
    requires '\n' !in s
    ensures Split(s) == [s]
  {
    if s != [] {
      assert s[0] != '\n';
      SplitLine(s[1..]);
      assert [s[0]] + s[1..] == s;
    }
  }

  /** Splitting at a newline splits the two sides independently. */
  lemma {:induction false} SplitAppend(a: string, b: string)
    ensures Split(a + "\n" + b) == Split(a) + Split(b)
    decreases |a|
  {
    var s := a + "\n" + b;
    if a == [] {
      assert s == "\n" + b && s[1..] == b;
    } else {
      assert s[0] == a[0] && s[1..] == a[1..] + "\n" + b;
      SplitAppend(a[1..], b);
      if a[0] != '\n' {
        SplitCharAppend(a, b);
      }
    }
  }

  /** Splitting a string that starts with a character other than a newline. */
  lemma SplitCons(c: char, t: string)
    requires c != '\n'
    ensures Split([c] + t) == [[c] + Split(t)[0]] + Split(t)[1..]
  {
    assert ([c] + t)[0] == c && ([c] + t)[1..] == t;
  }

  /** The step of SplitAppend where `a` starts with a character that is not a newline. */
  lemma SplitCharAppend(a: string, b: string)
    requires a != [] && a[0] != '\n'
    requires Split(a[1..] + "\n" + b) == Split(a[1..]) + Split(b)
    ensures Split(a + "\n" + b) == Split(a) + Split(b)
  {
    assert a + "\n" + b == [a[0]] + (a[1..] + "\n" + b);
    assert a == [a[0]] + a[1..];
    SplitCons(a[0], a[1..] + "\n" + b);
    SplitCons(a[0], a[1..]);
    ExtendFirst([a[0]], Split(a[1..]), Split(b));
  }

  /** Extending the first of a list of lines commutes with appending more lines. */
  lemma ExtendFirst(x: string, ra: seq<string>, rb: seq<string>)
    requires |ra| > 0
    ensures [x + (ra + rb)[0]] + (ra + rb)[1..] == ([x + ra[0]] + ra[1..]) + rb
  {
    assert (ra + rb)[1..] == ra[1..] + rb;
  }

  lemma SplitLineThen(line: string, rest: string)
    requires '\n' !in line
    ensures Split(line + "\n" + rest) == [line] + Split(rest)
  {
    SplitAppend(line, rest);
    SplitLine(line);
  }

  /** The first line prefixed with `prefix`, the others unchanged. */
  function PrefixFirst(lines: seq<string>, prefix: string): (r: seq<string>)
    requires |lines| > 0
    ensures |r| == |lines| && r[0] == prefix + lines[0] && r[1..] == lines[1..]
  {
    [prefix + lines[0]] + lines[1..]
  }

  lemma IndentLinesCons(lines: seq<string>, prefix: string)
    requires |lines| > 0
    ensures IndentLines(lines, prefix) == [prefix + lines[0]] + IndentLines(lines[1..], prefix)
  {
  }

  /**
   * A line start `pre` followed by a snippet whose newlines were replaced by
   * a newline and `prefix` splits into: `pre` + the snippet's first line, then
   * every further snippet line behind `prefix`.
   */
  lemma {:induction false} SplitExpanded(pre: string, s: string, prefix: string)
    requires '\n' !in pre && '\n' !in prefix
    ensures Split(pre + Expand(s, "\n" + prefix))
         == [pre + Split(s)[0]] + IndentLines(Split(s)[1..], prefix)
    decreases |s|
  {
    if s == [] {
      assert pre + Expand(s, "\n" + prefix) == pre;
      SplitLine(pre);
    } else if s[0] == '\n' {
      SplitExpandedNewline(pre, s, prefix);
    } else {
      SplitExpandedChar(pre, s, prefix);
    }
  }

  lemma {:induction false} SplitExpandedNewline(pre: string, s: string, prefix: string)
    requires '\n' !in pre && '\n' !in prefix
    requires s != [] && s[0] == '\n'
    ensures Split(pre + Expand(s, "\n" + prefix))
         == [pre + Split(s)[0]] + IndentLines(Split(s)[1..], prefix)
    decreases |s|, 0
  {
    var sep := "\n" + prefix;
    var tail := Expand(s[1..], sep);
    var rest := Split(s[1..]);
    assert Expand(s, sep) == sep + tail;
    assert pre + Expand(s, sep) == pre + "\n" + (prefix + tail);
    SplitAppend(pre, prefix + tail);
    SplitLine(pre);
    SplitExpanded(prefix, s[1..], prefix);
    assert Split(s) == [[]] + rest;
    assert Split(s)[1..] == rest;
    IndentLinesCons(rest, prefix);
    assert pre + Split(s)[0] == pre;
  }

  lemma {:induction false} SplitExpandedChar(pre: string, s: string, prefix: string)
    requires '\n' !in pre && '\n' !in prefix
    requires s != [] && s[0] != '\n'
    ensures Split(pre + Expand(s, "\n" + prefix))
         == [pre + Split(s)[0]] + IndentLines(Split(s)[1..], prefix)
    decreases |s|, 0
  {
    var sep := "\n" + prefix;
    var tail := Expand(s[1..], sep);
    var rest := Split(s[1..]);
    assert Expand(s, sep) == [s[0]] + tail;
    assert pre + Expand(s, sep) == (pre + [s[0]]) + tail;
    SplitExpanded(pre + [s[0]], s[1..], prefix);
    assert Split(s) == [[s[0]] + rest[0]] + rest[1..];
    assert pre + [s[0]] + rest[0] == pre + ([s[0]] + rest[0]);
  }

  /**
   * The indented snippet, placed after `pre` on a template line, yields the
   * snippet's lines with the first one behind `pre` and every other one behind
   * `k` spaces.
   */
  lemma SplitIndented(pre: string, snippet: string, k: nat)
    requires '\n' !in pre
    ensures Split(pre + Indent(snippet, k))
         == [pre + Split(snippet)[0]] + IndentLines(Split(snippet)[1..], Spaces(k))
  {
    JoinSplit(snippet, IndentSeparator(k));
    SplitExpanded(pre, snippet, Spaces(k));
  }

  /** An indented snippet behind `k` spaces: every line of the snippet behind `k` spaces. */
  lemma IndentedBlockLines(snippet: string, k: nat)
    ensures Split(Spaces(k) + Indent(snippet, k)) == IndentLines(Split(snippet), Spaces(k))
  {
    SplitIndented(Spaces(k), snippet, k);
    IndentLinesCons(Split(snippet), Spaces(k));
  }

  /** A snippet inserted verbatim after `pre`: its first line is behind `pre`, the others unchanged. */
  lemma SplitVerbatim(pre: string, snippet: string)
    requires '\n' !in pre
    ensures Split(pre + snippet) == [pre + Split(snippet)[0]] + Split(snippet)[1..]
  {
    var noPrefix: string := [];
    assert "\n" + noPrefix == "\n";
    ExpandNewline(snippet);
    SplitExpanded(pre, snippet, noPrefix);
    var rest := Split(snippet)[1..];
    assert forall i :: 0 <= i < |rest| ==> noPrefix + rest[i] == rest[i];
    assert IndentLines(rest, noPrefix) == rest;
  }
}
