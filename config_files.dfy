/**
 * The config store (src/configfilehandler.cpp): a shell configuration file read
 * line by line with getline, appended to when an alias is added, and rewritten
 * with the matching lines dropped when one is removed.
 */
module ConfigFiles {
  import opened Text
  import opened FileSystem
  import opened AliasCodec
  import opened ShellDetection

  /** A text without a line break: its first break is at the end. */
  predicate SingleLine(s: string) {
    IndexOf(s, '\n') == |s|
  }

  /** No line holds a line break, as is true of every line getline yields. */
  predicate NoBreaks(lines: seq<string>) {
    forall i :: 0 <= i < |lines| ==> SingleLine(lines[i])
  }

  /** What one getline call yields: the text before the first break. */
  function LineOf(s: string): (line: string)
    ensures SingleLine(line)
  {
    var k := IndexOf(s, '\n');
    IndexOfIs(s[..k], '\n', k);
    s[..k]
  }

  /** Where the next getline call starts: after the first break, or at the end when there is none. */
  function AfterLine(s: string): (r: string)
    ensures s != [] ==> |r| < |s|
  {
    var k := IndexOf(s, '\n');
    if k == |s| then [] else s[k + 1..]
  }

  /**
   * The lines successive getline calls yield: the text between line breaks,
   * where a final line break does not start another line.
   */
  function SplitLines(content: string): (lines: seq<string>)
    ensures lines == [] <==> content == []
    decreases |content|
  {
    if content == [] then [] else [LineOf(content)] + SplitLines(AfterLine(content))
  }

  /** What writeAllLines puts in the file: the lines with a '\n' between neighbours and none after the last. */
  function JoinLines(lines: seq<string>): string {
    if lines == [] then []
    else if |lines| == 1 then lines[0]
    else JoinLines(lines[..|lines| - 1]) + "\n" + lines[|lines| - 1]
  }

  /** The alias a line contributes to loadAliases: one when it is an alias line that parses to a name. */
  function AliasOf(line: string): seq<Alias> {
    var parsed := ParseAliasLine(line);
    if IsAliasLine(line) && parsed.name != [] then [parsed] else []
  }

  /** The aliases of a sequence of lines, in order, duplicates kept. */
  function AliasesIn(lines: seq<string>): (aliases: seq<Alias>)
    ensures |aliases| <= |lines|
    ensures forall i :: 0 <= i < |aliases| ==> aliases[i].name != []
  {
    if lines == [] then []
    else AliasesIn(lines[..|lines| - 1]) + AliasOf(lines[|lines| - 1])
  }

  /** The aliases loadAliases finds in a file holding `content`. */
  function Loaded(content: string): seq<Alias> {
    AliasesIn(SplitLines(content))
  }

  /** The test removeAlias applies to each line. */
  predicate Names(line: string, name: string) {
    IsAliasLine(line) && ParseAliasLine(line).name == name
  }

  /** Some line names the alias. */
  predicate Mentions(lines: seq<string>, name: string) {
    lines != [] && (Mentions(lines[..|lines| - 1], name) || Names(lines[|lines| - 1], name))
  }

  /** The lines removeAlias writes back: every line naming `name` dropped, the rest kept verbatim and in order. */
  function Without(lines: seq<string>, name: string): (kept: seq<string>)
    ensures |kept| <= |lines|
    ensures forall i :: 0 <= i < |kept| ==> !Names(kept[i], name)
    ensures kept == lines <==> !Mentions(lines, name)
    ensures forall i :: 0 <= i < |kept| ==> kept[i] in lines
    ensures forall i :: 0 <= i < |lines| && !Names(lines[i], name) ==> lines[i] in kept
  {
    if lines == [] then []
    else
      var init, last := lines[..|lines| - 1], lines[|lines| - 1];
      assert lines == init + [last];
      Without(init, name) + (if Names(last, name) then [] else [last])
  }

  /** Deciding one more line of removeAlias's scan: it is dropped exactly when it names the alias. */
  lemma {:induction false} WithoutStep(lines: seq<string>, i: nat, name: string)
    requires i < |lines|
    ensures Without(lines[..i + 1], name) == Without(lines[..i], name) + (if Names(lines[i], name) then [] else [lines[i]])
  {
    assert lines[..i + 1][..i] == lines[..i];
  }

  /** The alias is named among the first i + 1 lines when it is among the first i or in line i. */
  lemma {:induction false} MentionsStep(lines: seq<string>, i: nat, name: string)
    requires i < |lines|
    ensures Mentions(lines[..i + 1], name) <==> Mentions(lines[..i], name) || Names(lines[i], name)
  {
    assert lines[..i + 1][..i] == lines[..i];
  }

  /** removeAlias decides each line on its own: the kept lines of two runs are the kept lines of each, in order. */
  lemma {:induction false} WithoutAppend(a: seq<string>, b: seq<string>, name: string)
    ensures Without(a + b, name) == Without(a, name) + Without(b, name)
    decreases |b|
  {
    if b == [] {
      assert a + b == a;
    } else {
      var init := b[..|b| - 1];
      assert (a + b)[..|a + b| - 1] == a + init;
      WithoutAppend(a, init, name);
    }
  }

  /** The kept lines are lines of the input, so they hold no break when the input held none. */
  lemma {:induction false} WithoutNoBreaks(lines: seq<string>, name: string)
    requires NoBreaks(lines)
    ensures NoBreaks(Without(lines, name))
  {
    if lines != [] {
      WithoutNoBreaks(lines[..|lines| - 1], name);
    }
  }

  /** The aliases left once those called `name` are dropped. */
  function DropNamed(aliases: seq<Alias>, name: string): (rest: seq<Alias>)
    ensures forall i :: 0 <= i < |rest| ==> rest[i].name != name && rest[i] in aliases
    ensures (forall i :: 0 <= i < |aliases| ==> aliases[i].name != name) ==> rest == aliases
    ensures forall i :: 0 <= i < |aliases| && aliases[i].name != name ==> aliases[i] in rest
  {
    if aliases == [] then []
    else
      var init, last := aliases[..|aliases| - 1], aliases[|aliases| - 1];
      assert aliases == init + [last];
      DropNamed(init, name) + (if last.name == name then [] else [last])
  }

  /** Dropping a name decides each alias on its own: what is left of two runs is what is left of each, in order. */
  lemma {:induction false} DropNamedAppend(a: seq<Alias>, b: seq<Alias>, name: string)
    ensures DropNamed(a + b, name) == DropNamed(a, name) + DropNamed(b, name)
    decreases |b|
  {
    if b == [] {
      assert a + b == a;
    } else {
      var init := b[..|b| - 1];
      assert (a + b)[..|a + b| - 1] == a + init;
      DropNamedAppend(a, init, name);
    }
  }

  /** getline never yields a line break. */
  lemma {:induction false} SplitHasNoBreaks(content: string)
    ensures NoBreaks(SplitLines(content))
    decreases |content|
  {
    if content != [] {
      SplitHasNoBreaks(AfterLine(content));
    }
  }

  /** A string without line breaks is a single line, or none when it is empty. */
  lemma {:induction false} SplitSingle(s: string)
    requires SingleLine(s)
    ensures SplitLines(s) == if s == [] then [] else [s]
  {
    if s != [] {
      assert s[..|s|] == s;
    }
  }

  /** The empty line getline reports between `content` and an appended break: one when `content` is empty or ends in a break. */
  function BreakGap(content: string): seq<string> {
    if content == [] || content[|content| - 1] == '\n' then [""] else []
  }

  /**
   * Appending a line break and a text: the text becomes a new last line, and
   * an empty line appears before it when `content` was empty or already ended
   * in a line break.
   */
  lemma {:induction false} SplitAppend(content: string, text: string)
    requires SingleLine(text)
    ensures SplitLines(content + "\n" + text) ==
      SplitLines(content) + BreakGap(content) + (if text == [] then [] else [text])
    decreases |content|
  {
    var t := content + "\n" + text;
    var k := IndexOf(content, '\n');
    BreakAfter(content, text);
    if k < |content| {
      var rest := content[k + 1..];
      assert t[k + 1..] == rest + "\n" + text;
      SplitAppend(rest, text);
      SplitAppendStep(content, text, k);
    } else {
      SplitAppendLast(content, text);
    }
  }

  /** The first break of `content + "\n" + text` is the first break of `content`, or the appended one. */
  lemma {:induction false} BreakAfter(content: string, text: string)
    ensures var t := content + "\n" + text;
      && IndexOf(t, '\n') == IndexOf(content, '\n') < |t|
      && t[..IndexOf(content, '\n')] == content[..IndexOf(content, '\n')]
  {
    var t := content + "\n" + text;
    var k := IndexOf(content, '\n');
    IndexOfIs(t, '\n', k);
    assert t[..k] == content[..k];
  }

  /** The case of SplitAppend where `content` holds no break. */
  lemma {:induction false} SplitAppendLast(content: string, text: string)
    requires SingleLine(text) && SingleLine(content)
    ensures SplitLines(content + "\n" + text) ==
      SplitLines(content) + BreakGap(content) + (if text == [] then [] else [text])
  {
    var t := content + "\n" + text;
    BreakAfter(content, text);
    SplitSingle(text);
    SplitSingle(content);
    assert t[|content| + 1..] == text;
    assert content[..|content|] == content;
    if content != [] {
      assert content[|content| - 1] != '\n';
    }
  }

  /** getline at a break: the text before it is the first line, the lines after it follow. */
  lemma {:induction false} SplitFirst(s: string, k: nat)
    requires k == IndexOf(s, '\n') < |s|
    ensures SplitLines(s) == [s[..k]] + SplitLines(s[k + 1..])
  {
    assert LineOf(s) == s[..k] && AfterLine(s) == s[k + 1..];
  }

  /** One getline call moves a line from the unread text to the lines read. */
  lemma {:induction false} GetlineStep(read: seq<string>, rest: string)
    requires rest != []
    ensures read + SplitLines(rest) == (read + [LineOf(rest)]) + SplitLines(AfterLine(rest))
  {
  }

  /** The step of SplitAppend: the first line of `content` comes first, the rest behaves like `content` itself. */
  lemma {:induction false} SplitAppendStep(content: string, text: string, k: nat)
    requires k == IndexOf(content, '\n') < |content|
    requires SplitLines(content[k + 1..] + "\n" + text) ==
      SplitLines(content[k + 1..]) + BreakGap(content[k + 1..]) + (if text == [] then [] else [text])
    ensures SplitLines(content + "\n" + text) ==
      SplitLines(content) + BreakGap(content) + (if text == [] then [] else [text])
  {
    var rest := content[k + 1..];
    SplitFirstAppended(content, text, k);
    SplitFirst(content, k);
    LinesStep(content, text, k, SplitLines(content), SplitLines(content + "\n" + text),
              SplitLines(rest + "\n" + text), SplitLines(rest));
  }

  /** Splitting `content + "\n" + text` at the first break of `content`. */
  lemma {:induction false} SplitFirstAppended(content: string, text: string, k: nat)
    requires k == IndexOf(content, '\n') < |content|
    ensures SplitLines(content + "\n" + text) == [content[..k]] + SplitLines(content[k + 1..] + "\n" + text)
  {
    BreakAfter(content, text);
    SplitFirst(content + "\n" + text, k);
    TailAfterBreak(content, text, k);
  }

  /** What follows the first break of `content` once `"\n" + text` is appended. */
  lemma {:induction false} TailAfterBreak(content: string, text: string, k: nat)
    requires k < |content|
    ensures (content + "\n" + text)[k + 1..] == content[k + 1..] + "\n" + text
  {
  }

  /** The bookkeeping of SplitAppendStep, over the line sequences themselves. */
  lemma {:induction false} LinesStep(content: string, text: string, k: nat,
                  whole: seq<string>, appended: seq<string>, restAppended: seq<string>, rest: seq<string>)
    requires k < |content| && content[k] == '\n'
    requires whole == [content[..k]] + rest
    requires appended == [content[..k]] + restAppended
    requires restAppended == rest + BreakGap(content[k + 1..]) + (if text == [] then [] else [text])
    ensures appended == whole + BreakGap(content) + (if text == [] then [] else [text])
  {
    assert BreakGap(content[k + 1..]) == BreakGap(content);
  }

  /** The written text is empty or ends in a line break exactly when the last line written is empty. */
  lemma {:induction false} JoinEnding(lines: seq<string>)
    requires NoBreaks(lines) && lines != []
    ensures BreakGap(JoinLines(lines)) == if lines[|lines| - 1] == [] then [""] else []
  {
    var last := lines[|lines| - 1];
    if last != [] {
      assert last[|last| - 1] in last;
    }
  }

  /**
   * Reading back what writeAllLines wrote gives the same lines, except that an
   * empty last line is lost (getline sees no line after the final break).
   */
  lemma {:induction false} ReadAfterWrite(lines: seq<string>)
    requires NoBreaks(lines)
    ensures SplitLines(JoinLines(lines)) == Unpadded(lines)
  {
    if |lines| == 1 {
      SplitSingle(lines[0]);
    } else if |lines| > 1 {
      var init, last := lines[..|lines| - 1], lines[|lines| - 1];
      assert SingleLine(last);
      assert NoBreaks(init);
      SplitAppend(JoinLines(init), last);
      ReadAfterWrite(init);
      JoinEnding(init);
      ReadStep(lines, SplitLines(JoinLines(lines)), SplitLines(JoinLines(init)));
    }
  }

  /** The lines without an empty last one. */
  function Unpadded(lines: seq<string>): seq<string> {
    if lines != [] && lines[|lines| - 1] == [] then lines[..|lines| - 1] else lines
  }

  /** The bookkeeping of ReadAfterWrite, over the line sequences themselves. */
  lemma {:induction false} ReadStep(lines: seq<string>, read: seq<string>, readInit: seq<string>)
    requires |lines| > 1
    requires readInit == Unpadded(lines[..|lines| - 1])
    requires read == readInit
      + (if lines[|lines| - 2] == [] then [""] else [])
      + (if lines[|lines| - 1] == [] then [] else [lines[|lines| - 1]])
    ensures read == Unpadded(lines)
  {
    var init := lines[..|lines| - 1];
    if init[|init| - 1] == [] {
      assert init[..|init| - 1] + [""] == init;
    }
    assert lines == init + [lines[|lines| - 1]];
  }

  lemma {:induction false} AliasesInAppend(a: seq<string>, b: seq<string>)
    ensures AliasesIn(a + b) == AliasesIn(a) + AliasesIn(b)
    decreases |b|
  {
    if b == [] {
      assert a + b == a;
    } else {
      var init := b[..|b| - 1];
      assert (a + b)[..|a + b| - 1] == a + init;
      AliasesInAppend(a, init);
    }
  }

  /** One more line read adds that line's alias, if any, at the end. */
  lemma {:induction false} AliasesInSnoc(lines: seq<string>, line: string)
    ensures AliasesIn(lines + [line]) == AliasesIn(lines) + AliasOf(line)
  {
    assert (lines + [line])[..|lines|] == lines;
  }

  /** An empty line holds no alias. */
  lemma {:induction false} EmptyLineHoldsNoAlias()
    ensures AliasOf("") == []
  {
    assert TrimLeft("") == "";
  }

  /**
   * Adding an alias and loading again yields the aliases loaded before
   * followed by the parse of the new line; that is the alias itself unless
   * its command holds both quote kinds.
   */
  lemma {:induction false} LoadAfterAdd(content: string, a: Alias)
    requires ValidName(a.name) && '\n' !in a.command
    ensures Loaded(content + "\n" + FormatAlias(a)) ==
      Loaded(content) + [Alias(a.name, a.command[..IndexOf(a.command, QuoteFor(a.command))])]
    ensures !('\'' in a.command && '"' in a.command) ==>
      Loaded(content + "\n" + FormatAlias(a)) == Loaded(content) + [a]
  {
    var line := FormatAlias(a);
    FormatHasNoBreak(a);
    SplitAppend(content, line);
    AliasesOfAppended(SplitLines(content), BreakGap(content), line);
    ParseFormatted(a);
    AliasOfParsed(line);
    if !('\'' in a.command && '"' in a.command) {
      FormatParseRoundTrip(a);
    }
  }

  /** Lines read, possibly an empty line, then one more line: the aliases are those read plus the new line's. */
  lemma {:induction false} AliasesOfAppended(lines: seq<string>, gap: seq<string>, line: string)
    requires gap == [] || gap == [""]
    ensures AliasesIn(lines + gap + [line]) == AliasesIn(lines) + AliasOf(line)
  {
    AliasesInSnoc(lines + gap, line);
    if gap == [""] {
      AliasesInSnoc(lines, "");
      EmptyLineHoldsNoAlias();
    } else {
      assert lines + gap == lines;
    }
  }

  /** A line that parses to a name contributes exactly its parse. */
  lemma {:induction false} AliasOfParsed(line: string)
    requires ParseAliasLine(line).name != []
    ensures AliasOf(line) == [ParseAliasLine(line)]
  {
  }

  /** A formatted alias is a single line when its command is. */
  lemma {:induction false} FormatHasNoBreak(a: Alias)
    requires ValidName(a.name) && '\n' !in a.command
    ensures SingleLine(FormatAlias(a))
  {
    var q := QuoteFor(a.command);
    var line := FormatAlias(a);
    assert line == "alias " + a.name + "=" + [q] + a.command + [q];
    ValidNameChars(a.name);
    forall i | 0 <= i < |line|
      ensures line[i] != '\n'
    {
      if 6 <= i < 6 + |a.name| {
        assert line[i] == a.name[i - 6];
      } else if 8 + |a.name| <= i < |line| - 1 {
        assert line[i] == a.command[i - 8 - |a.name|];
      }
    }
  }

  /** `alias <name>=<rest>` is a single line when `rest` holds no break. */
  lemma {:induction false} KeywordLineNoBreak(n: string, rest: string)
    requires ValidName(n) && '\n' !in rest
    ensures SingleLine("alias " + n + "=" + rest)
  {
    var line := "alias " + n + "=" + rest;
    forall i | 0 <= i < |line|
      ensures line[i] != '\n'
    {
      if 6 <= i < 6 + |n| {
        assert line[i] == n[i - 6];
        assert IsNameChar(n[i - 6]);
      } else if 7 + |n| <= i {
        assert line[i] == rest[i - 7 - |n|];
      }
    }
  }

  /**
   * validateCommand lets a line break through, and getline then reads the
   * added line back as two: a command `c1<break>alias m=d` added under the
   * name `n` loads as `n` with the command `c1`, cut at the break, followed by
   * an injected alias `m` whose command `d` keeps the closing quote.
   */
  lemma {:induction false} AddedBreakInjectsAlias(content: string, n: string, c1: string, m: string, d: string)
    requires ValidName(n) && ValidName(m)
    requires '\n' !in c1 && '\'' !in c1
    requires d != [] && !IsBlank(d[0]) && !IsQuote(d[0]) && '#' !in d && '\'' !in d && '\n' !in d
    ensures Loaded(content + "\n" + FormatAlias(Alias(n, c1 + "\n" + ("alias " + m + "=" + d)))) ==
      Loaded(content) + [Alias(n, c1), Alias(m, d + ['\''])]
    ensures |c1| + |m| + |d| + 8 <= MaxCommandLength ==> ValidateCommand(c1 + "\n" + ("alias " + m + "=" + d))
  {
    var first, second := "alias " + n + "=" + (['\''] + c1), "alias " + m + "=" + (d + ['\'']);
    var line := FormatAlias(Alias(n, c1 + "\n" + ("alias " + m + "=" + d)));
    InjectedCommandLength(c1, m, d);
    InjectedFormat(n, c1, m, d);
    InjectedLineAliases(n, c1, m, d);
    LoadedInjected(content, line, first, second, Alias(n, c1), Alias(m, d + ['\'']));
  }

  /** Text that is two single lines, each holding one alias, loads after `content` as those two aliases. */
  lemma {:induction false} LoadedInjected(content: string, line: string, first: string, second: string, x: Alias, y: Alias)
    requires line == first + "\n" + second
    requires SingleLine(first) && SingleLine(second) && first != [] && second != []
    requires AliasOf(first) == [x] && AliasOf(second) == [y]
    ensures Loaded(content + "\n" + line) == Loaded(content) + [x, y]
  {
    InjectedLines(content, first, second);
  }

  /** The injected command has eight bytes more than its three parts, so validateCommand accepts it up to that bound. */
  lemma {:induction false} InjectedCommandLength(c1: string, m: string, d: string)
    ensures |c1 + "\n" + ("alias " + m + "=" + d)| == |c1| + |m| + |d| + 8
    ensures |c1| + |m| + |d| + 8 <= MaxCommandLength ==> ValidateCommand(c1 + "\n" + ("alias " + m + "=" + d))
  {
  }

  /** The quoted command `c1`, a break, and a keyword line without its opening quote format as two lines. */
  lemma {:induction false} InjectedFormat(n: string, c1: string, m: string, d: string)
    requires ValidName(m) && '\'' !in c1 && '\'' !in d
    ensures FormatAlias(Alias(n, c1 + "\n" + ("alias " + m + "=" + d))) ==
      ("alias " + n + "=" + (['\''] + c1)) + "\n" + ("alias " + m + "=" + (d + ['\'']))
  {
    var c := c1 + "\n" + ("alias " + m + "=" + d);
    ValidNameChars(m);
    assert '\'' !in m;
    assert '\'' !in c;
  }

  /** Each of the two injected lines is a single line holding one alias. */
  lemma {:induction false} InjectedLineAliases(n: string, c1: string, m: string, d: string)
    requires ValidName(n) && ValidName(m)
    requires '\n' !in c1 && '\'' !in c1
    requires d != [] && !IsBlank(d[0]) && !IsQuote(d[0]) && '#' !in d && '\n' !in d
    ensures var first := "alias " + n + "=" + (['\''] + c1);
      SingleLine(first) && first != [] && AliasOf(first) == [Alias(n, c1)]
    ensures var second := "alias " + m + "=" + (d + ['\'']);
      SingleLine(second) && second != [] && AliasOf(second) == [Alias(m, d + ['\''])]
  {
    var first, second := "alias " + n + "=" + (['\''] + c1), "alias " + m + "=" + (d + ['\'']);
    KeywordLineNoBreak(n, ['\''] + c1);
    KeywordLineNoBreak(m, d + ['\'']);
    ParseUnclosedQuote(n, c1);
    ParseStrayQuote(m, d);
    AliasOfParsed(first);
    AliasOfParsed(second);
  }

  /** Two single lines appended after `content`, each behind a break, load as the aliases of each in turn. */
  lemma {:induction false} InjectedLines(content: string, first: string, second: string)
    requires SingleLine(first) && SingleLine(second) && first != [] && second != []
    ensures Loaded(content + "\n" + (first + "\n" + second)) == Loaded(content) + AliasOf(first) + AliasOf(second)
  {
    TwoLinesSplit(content, first, second);
    var lines, gap := SplitLines(content), BreakGap(content);
    AliasesOfAppended(lines, gap, first);
    AliasesInSnoc(lines + gap + [first], second);
  }

  /** getline on `content` followed by two single lines, each behind a break. */
  lemma {:induction false} TwoLinesSplit(content: string, first: string, second: string)
    requires SingleLine(first) && SingleLine(second) && first != [] && second != []
    ensures SplitLines(content + "\n" + (first + "\n" + second)) ==
      SplitLines(content) + BreakGap(content) + [first] + [second]
  {
    var once := content + "\n" + first;
    RegroupBreaks(content, first, second);
    SplitAppend(content, first);
    NoGapAfterLine(content, first);
    SplitAppend(once, second);
  }

  /** Appending two breaks and lines at once or one after the other gives the same text. */
  lemma {:induction false} RegroupBreaks(content: string, first: string, second: string)
    ensures content + "\n" + (first + "\n" + second) == (content + "\n" + first) + "\n" + second
  {
  }

  /** After a break and a non-empty single line, the text does not end in a break. */
  lemma {:induction false} NoGapAfterLine(content: string, first: string)
    requires SingleLine(first) && first != []
    ensures BreakGap(content + "\n" + first) == []
  {
    var once := content + "\n" + first;
    assert once[|once| - 1] == first[|first| - 1];
  }

  /** Dropping the lines that name an alias drops exactly the loaded aliases of that name. */
  lemma {:induction false} AliasesWithout(lines: seq<string>, name: string)
    ensures AliasesIn(Without(lines, name)) == DropNamed(AliasesIn(lines), name)
  {
    if lines != [] {
      var init, last := lines[..|lines| - 1], lines[|lines| - 1];
      AliasesWithout(init, name);
      AliasesInAppend(Without(init, name), if Names(last, name) then [] else [last]);
      var found := AliasOf(last);
      var before := AliasesIn(init);
      assert AliasesIn(lines) == before + found;
      if found != [] {
        assert (before + found)[..|before + found| - 1] == before;
      } else {
        assert before + found == before;
      }
    }
  }

  /**
   * After removeAlias rewrites a file, loading it yields the aliases loaded
   * before without those called `name`, the others in their old order.
   */
  lemma {:induction false} LoadAfterRemove(content: string, name: string)
    ensures Loaded(JoinLines(Without(SplitLines(content), name))) == DropNamed(Loaded(content), name)
  {
    var kept := Without(SplitLines(content), name);
    SplitHasNoBreaks(content);
    WithoutNoBreaks(SplitLines(content), name);
    ReadAfterWrite(kept);
    AliasesWithout(SplitLines(content), name);
    if kept != [] && kept[|kept| - 1] == [] {
      EmptyLineHoldsNoAlias();
      assert AliasesIn(kept) == AliasesIn(kept[..|kept| - 1]) + AliasOf("");
    }
  }

  /** Dropping a name from aliases followed by one more: the last one goes exactly when it has that name. */
  lemma {:induction false} DropNamedSnoc(aliases: seq<Alias>, a: Alias, name: string)
    ensures DropNamed(aliases + [a], name) == DropNamed(aliases, name) + (if a.name == name then [] else [a])
  {
    assert (aliases + [a])[..|aliases + [a]| - 1] == aliases;
  }

  /**
   * The remove scenario of the config store tests: two aliases appended, then
   * the first removed by name. Loading yields what the file held before
   * without that name, followed by the second alias.
   */
  lemma {:induction false} AddTwiceThenRemoveFirst(content: string, a: Alias, b: Alias)
    requires ValidName(a.name) && ValidName(b.name) && a.name != b.name
    requires '\n' !in a.command && '\n' !in b.command
    requires !('\'' in a.command && '"' in a.command) && !('\'' in b.command && '"' in b.command)
    ensures var written := content + "\n" + FormatAlias(a) + "\n" + FormatAlias(b);
      Loaded(JoinLines(Without(SplitLines(written), a.name))) == DropNamed(Loaded(content), a.name) + [b]
  {
    var once := content + "\n" + FormatAlias(a);
    LoadAfterAdd(content, a);
    LoadAfterAdd(once, b);
    LoadAfterRemove(once + "\n" + FormatAlias(b), a.name);
    DropFirstOfTwo(Loaded(content), a, b);
  }

  /** Dropping the name of the first of two appended aliases keeps the second. */
  lemma {:induction false} DropFirstOfTwo(aliases: seq<Alias>, a: Alias, b: Alias)
    requires a.name != b.name
    ensures DropNamed(aliases + [a] + [b], a.name) == DropNamed(aliases, a.name) + [b]
  {
    DropNamedSnoc(aliases, a, a.name);
    DropNamedSnoc(aliases + [a], b, a.name);
  }

  /** Expanding `~/file` is expanding `~` and appending `/file`. */
  lemma {:induction false} ExpandBelowHome(file: string, env: Env)
    ensures ExpandHome("~/" + file, env) == ExpandHome("~", env) + "/" + file
  {
    assert ("~/" + file)[1..] == "/" + file;
  }

  /** The path the handler spells out for a known shell is the detector's configuration file. */
  lemma {:induction false} StandardPath(shell: Shell, path: string, env: Env)
    requires shell != UNKNOWN && path == "~/" + RcFile(shell)
    ensures ExpandHome(path, env) == ShellDetection.GetConfigFilePath(shell, env)
  {
    ExpandBelowHome(RcFile(shell), env);
  }

  /** The config-file handler: one file, the shell it belongs to, and the last failure. */
  class ConfigFileHandler {
    const configFilePath: string
    const shell: Shell
    const disk: Disk
    var lastError: string

    constructor (configFilePath: string, shell: Shell, disk: Disk)
      ensures this.configFilePath == configFilePath && this.shell == shell && this.disk == disk
      ensures lastError == ""
    {
      this.configFilePath := configFilePath;
      this.shell := shell;
      this.disk := disk;
      lastError := "";
    }

    /** The lines readAllLines returns for the file as it now is: none when it cannot be opened. */
    function CurrentLines(): seq<string>
      reads disk
    {
      if disk.CanRead(configFilePath) then SplitLines(disk.files[configFilePath].content) else []
    }

    /** getConfigFilePath: the standard file of a known shell, the handler's own path otherwise. */
    function GetConfigFilePath(env: Env): (r: string)
      ensures shell == UNKNOWN ==> r == configFilePath
      ensures shell != UNKNOWN ==> r == ShellDetection.GetConfigFilePath(shell, env)
    {
      match shell
      case BASH =>
        StandardPath(BASH, "~/.bashrc", env);
        ExpandHome("~/.bashrc", env)
      case ZSH =>
        StandardPath(ZSH, "~/.zshrc", env);
        ExpandHome("~/.zshrc", env)
      case FISH =>
        StandardPath(FISH, "~/.config/fish/config.fish", env);
        ExpandHome("~/.config/fish/config.fish", env)
      case UNKNOWN => configFilePath
    }

    /** readAllLines: one getline call per iteration, each line pushed in order. */
    method ReadAllLines() returns (lines: seq<string>)
      ensures lines == CurrentLines()
    {
      lines := [];
      if !disk.CanRead(configFilePath) {
        return;
      }
      var rest := disk.files[configFilePath].content;
      while rest != []
        invariant lines + SplitLines(rest) == CurrentLines()
        decreases |rest|
      {
        GetlineStep(lines, rest);
        lines := lines + [LineOf(rest)];
        rest := AfterLine(rest);
      }
    }

    /** loadAliases: the aliases of the file in order, or none and an error when it cannot be read. */
    method LoadAliases() returns (aliases: seq<Alias>)
      modifies this`lastError
      ensures !disk.Exists(configFilePath) ==>
        aliases == [] && lastError == "Config file does not exist: " + configFilePath
      ensures disk.Exists(configFilePath) && !disk.CanRead(configFilePath) ==>
        aliases == [] && lastError == "Cannot open config file for reading: " + configFilePath
      ensures disk.CanRead(configFilePath) ==>
        aliases == Loaded(disk.files[configFilePath].content) && lastError == old(lastError)
    {
      aliases := [];
      if !disk.Exists(configFilePath) {
        lastError := "Config file does not exist: " + configFilePath;
        return;
      }
      if !disk.CanRead(configFilePath) {
        lastError := "Cannot open config file for reading: " + configFilePath;
        return;
      }
      var rest := disk.files[configFilePath].content;
      ghost var seen: seq<string> := [];
      while rest != []
        invariant seen + SplitLines(rest) == CurrentLines()
        invariant aliases == AliasesIn(seen)
        invariant lastError == old(lastError)
        decreases |rest|
      {
        var line := LineOf(rest);
        GetlineStep(seen, rest);
        AliasesInSnoc(seen, line);
        if IsAliasLine(line) {
          var parsed := ParseAliasLine(line);
          if parsed.name != [] {
            aliases := aliases + [parsed];
          }
        }
        seen := seen + [line];
        rest := AfterLine(rest);
      }
      assert seen == CurrentLines();
    }

    /** ensureFileExists: an existing file is left alone, a missing one is created empty. */
    method EnsureFileExists() returns (ok: bool)
      modifies disk`files
      ensures ok <==> configFilePath in old(disk.files) || configFilePath !in disk.unwritable
      ensures disk.files ==
        if configFilePath in old(disk.files) || !ok then old(disk.files)
        else old(disk.files)[configFilePath := Entry("", disk.clock)]
    {
      if disk.Exists(configFilePath) {
        return true;
      }
      ok := disk.WriteFile(configFilePath, "");
    }

    /**
     * addAlias: validates, makes sure the file exists, then appends a line
     * break and the formatted alias. No check for an alias of the same name.
     */
    method AddAlias(alias: Alias) returns (ok: bool)
      modifies this`lastError, disk`files
      ensures !(ValidName(alias.name) && ValidateCommand(alias.command)) ==>
        !ok && lastError == "Invalid alias name or command" && disk.files == old(disk.files)
      ensures ValidName(alias.name) && ValidateCommand(alias.command) && configFilePath in disk.unwritable ==>
        !ok && disk.files == old(disk.files) &&
        lastError == (if configFilePath in old(disk.files) then "Cannot open config file for writing"
                      else "Cannot create config file")
      ensures ValidName(alias.name) && ValidateCommand(alias.command) && configFilePath !in disk.unwritable ==>
        ok && lastError == old(lastError) &&
        disk.files == old(disk.files)[configFilePath := Entry(
          (if configFilePath in old(disk.files) then old(disk.files)[configFilePath].content else "")
          + "\n" + FormatAlias(alias), disk.clock)]
    {
      var nameOk := ValidateAliasName(alias.name);
      if !nameOk || !ValidateCommand(alias.command) {
        lastError := "Invalid alias name or command";
        return false;
      }
      var created := EnsureFileExists();
      if !created {
        lastError := "Cannot create config file";
        return false;
      }
      ghost var before := if configFilePath in old(disk.files) then old(disk.files)[configFilePath].content else "";
      assert disk.files == old(disk.files)[configFilePath := Entry(before, disk.files[configFilePath].mtime)];
      ok := disk.AppendFile(configFilePath, "\n" + FormatAlias(alias));
      assert before + ("\n" + FormatAlias(alias)) == before + "\n" + FormatAlias(alias);
      if !ok {
        lastError := "Cannot open config file for writing";
      }
    }

    /** writeAllLines: truncates the file and writes the lines with a break between neighbours. */
    method WriteAllLines(lines: seq<string>) returns (ok: bool)
      modifies this`lastError, disk`files
      ensures ok <==> configFilePath !in disk.unwritable
      ensures ok ==> disk.files == old(disk.files)[configFilePath := Entry(JoinLines(lines), disk.clock)] &&
                     lastError == old(lastError)
      ensures !ok ==> disk.files == old(disk.files) && lastError == "Cannot open file for writing"
    {
      var text := "";
      for i := 0 to |lines|
        invariant text == JoinLines(lines[..i]) + (if 0 < i < |lines| then "\n" else "")
      {
        assert lines[..i + 1][..i] == lines[..i];
        text := text + lines[i];
        if i < |lines| - 1 {
          text := text + "\n";
        }
      }
      assert lines[..|lines|] == lines;
      assert text == JoinLines(lines);
      ok := disk.WriteFile(configFilePath, text);
      if !ok {
        lastError := "Cannot open file for writing";
      }
    }

    /**
     * removeAlias: reads the lines, drops every one naming the alias, and
     * rewrites the file; fails without writing when the file is missing or
     * yields no line, or when no line names the alias.
     */
    method RemoveAlias(name: string) returns (ok: bool)
      modifies this`lastError, disk`files
      ensures !disk.Exists(configFilePath) ==>
        !ok && lastError == "Config file does not exist" && disk.files == old(disk.files)
      ensures disk.Exists(configFilePath) && old(CurrentLines()) == [] ==>
        !ok && lastError == "Failed to read config file" && disk.files == old(disk.files)
      ensures disk.Exists(configFilePath) && old(CurrentLines()) != [] && !Mentions(old(CurrentLines()), name) ==>
        !ok && lastError == "Alias not found: " + name && disk.files == old(disk.files)
      ensures old(CurrentLines()) != [] && Mentions(old(CurrentLines()), name) && configFilePath in disk.unwritable ==>
        !ok && lastError == "Cannot open file for writing" && disk.files == old(disk.files)
      ensures old(CurrentLines()) != [] && Mentions(old(CurrentLines()), name) && configFilePath !in disk.unwritable ==>
        ok && lastError == old(lastError) &&
        disk.files == old(disk.files)[configFilePath := Entry(JoinLines(Without(old(CurrentLines()), name)), disk.clock)]
    {
      if !disk.Exists(configFilePath) {
        lastError := "Config file does not exist";
        return false;
      }
      var lines := ReadAllLines();
      if lines == [] {
        lastError := "Failed to read config file";
        return false;
      }
      var found := false;
      var newLines: seq<string> := [];
      for i := 0 to |lines|
        invariant newLines == Without(lines[..i], name)
        invariant found <==> Mentions(lines[..i], name)
        invariant disk.files == old(disk.files) && lastError == old(lastError)
      {
        WithoutStep(lines, i, name);
        MentionsStep(lines, i, name);
        if IsAliasLine(lines[i]) {
          var parsed := ParseAliasLine(lines[i]);
          if parsed.name == name {
            found := true;
            continue;
          }
        }
        newLines := newLines + [lines[i]];
      }
      assert lines[..|lines|] == lines;
      if !found {
        lastError := "Alias not found: " + name;
        return false;
      }
      ok := WriteAllLines(newLines);
    }
  }
}
