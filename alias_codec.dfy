/**
 * The alias line codec (src/aliasmanager.cpp): validation of alias names and
 * commands, formatting of an alias as a configuration-file line, and the
 * permissive single-pass parser that reads such a line back.
 */
module AliasCodec {
  import opened Text
  import opened ShellDetection

  /** A shell alias: `alias name='command'`. */
  datatype Alias = Alias(name: string, command: string)

  /** What parseAliasLine returns for a line it does not accept. */
  const NoAlias := Alias("", "")

  const MaxNameLength := 255
  const MaxCommandLength := 2048

  /** std::isalnum in the "C" locale. */
  predicate IsAsciiAlnum(c: char) {
    ('a' <= c <= 'z') || ('A' <= c <= 'Z') || ('0' <= c <= '9')
  }

  predicate IsNameStart(c: char) {
    IsAsciiAlnum(c) || c == '_'
  }

  predicate IsNameChar(c: char) {
    IsAsciiAlnum(c) || c == '_' || c == '-'
  }

  predicate IsQuote(c: char) {
    c == '\'' || c == '"'
  }

  /** The naming rule: 1 to 255 characters, a letter, digit or '_' first, then letters, digits, '_' or '-'. */
  predicate ValidName(name: string) {
    && 1 <= |name| <= MaxNameLength
    && IsNameStart(name[0])
    && forall i :: 0 <= i < |name| ==> IsNameChar(name[i])
  }

  /** validateCommand: any text of 1 to 2048 characters. */
  predicate ValidateCommand(command: string) {
    |command| != 0 && |command| <= MaxCommandLength
  }

  /** validateAliasName: length check, first-character check, then a scan that stops at the first bad character. */
  method ValidateAliasName(name: string) returns (ok: bool)
    ensures ok == ValidName(name)
  {
    if |name| == 0 || |name| > MaxNameLength {
      return false;
    }
    if !IsAsciiAlnum(name[0]) && name[0] != '_' {
      return false;
    }
    for i := 0 to |name|
      invariant forall j :: 0 <= j < i ==> IsNameChar(name[j])
    {
      var c := name[i];
      if !IsAsciiAlnum(c) && c != '_' && c != '-' {
        return false;
      }
    }
    return true;
  }

  /** A valid name holds no blank, no '=' and no quote, so it survives the parser's trims and splits. */
  lemma {:induction false} ValidNameChars(name: string)
    requires ValidName(name)
    ensures forall i :: 0 <= i < |name| ==> !IsBlank(name[i]) && name[i] != '=' && !IsQuote(name[i])
  {
    forall i | 0 <= i < |name|
      ensures !IsBlank(name[i]) && name[i] != '=' && !IsQuote(name[i])
    {
      assert IsNameChar(name[i]);
    }
  }

  /** The quote formatAlias wraps a command in: '"' when the command holds a '\'', else '\''. */
  function QuoteFor(command: string): (q: char)
    ensures IsQuote(q)
    ensures q == '"' <==> '\'' in command
  {
    if '\'' in command then '"' else '\''
  }

  /**
   * formatAlias: `alias name='command'`, or `alias name="command"` when the
   * command holds a single quote. The body is never escaped and the shell
   * dialect plays no part.
   */
  function FormatAlias(a: Alias): (line: string)
    ensures |line| == |a.name| + |a.command| + 9
    ensures line[|line| - 1] == QuoteFor(a.command)
  {
    var q := QuoteFor(a.command);
    "alias " + a.name + "=" + ([q] + a.command + [q])
  }

  /**
   * The command of an alias line, from `cmd`, the text after '=' with its
   * leading blanks removed. A quoted command runs to the next quote of the same
   * kind, or to the end of the line when that quote is missing. An unquoted
   * command stops at the first '#' and loses its trailing blanks.
   */
  function ExtractCommand(cmd: string): string
    requires cmd != [] && !IsBlank(cmd[0])
  {
    if cmd[0] == '\'' || cmd[0] == '"' then
      var quote := cmd[0];
      var endQuote := 1 + IndexOf(cmd[1..], quote);
      cmd[1..endQuote]
    else
      var beforeComment := cmd[..IndexOf(cmd, '#')];
      if HasNonBlank(beforeComment) then TrimRight(beforeComment) else beforeComment
  }

  /**
   * A quoted command is the text after the opening quote, free of that quote,
   * up to the closing quote or the end of the line. An unquoted command is a
   * prefix of the text before the first '#' that ends in a non-blank, and only
   * blanks are dropped after it.
   */
  lemma {:induction false} ExtractCommandShape(cmd: string)
    requires cmd != [] && !IsBlank(cmd[0])
    ensures var r := ExtractCommand(cmd);
      && (IsQuote(cmd[0]) ==>
        && 1 + |r| <= |cmd| && r == cmd[1..1 + |r|]
        && cmd[0] !in r
        && (1 + |r| == |cmd| || cmd[1 + |r|] == cmd[0]))
      && (!IsQuote(cmd[0]) ==>
        && |r| <= IndexOf(cmd, '#') && r == cmd[..|r|]
        && '#' !in r
        && (r == [] || !IsBlank(r[|r| - 1]))
        && forall j :: |r| <= j < IndexOf(cmd, '#') ==> IsBlank(cmd[j]))
  {
    if !IsQuote(cmd[0]) {
      var beforeComment := cmd[..IndexOf(cmd, '#')];
      assert beforeComment != [] ==> beforeComment[0] == cmd[0];
    }
  }

  /**
   * parseAliasLine: trim the leading blanks, require the keyword `alias`, split
   * at the first '=', trim the name, left-trim the command part and extract the
   * command. Any rejection yields the empty alias. The name is not validated.
   */
  function ParseAliasLine(line: string): (r: Alias)
    ensures r.name == [] ==> r == NoAlias
    ensures r.name != [] ==> IsAliasLine(line)
  {
    ParseTrimmed(TrimLeft(line))
  }

  /** parseAliasLine after the leading blanks are gone. */
  function ParseTrimmed(trimmed: string): (r: Alias)
    ensures r.name == [] ==> r == NoAlias
    ensures r.name != [] ==> StartsWith(trimmed, "alias")
  {
    if !StartsWith(trimmed, "alias") then NoAlias
    else
      var eqPos := IndexOf(trimmed, '=');
      if eqPos == |trimmed| then NoAlias
      else
        KeywordPrecedesEquals(trimmed);
        ParseParts(trimmed[5..eqPos], trimmed[eqPos + 1..])
  }

  /** parseAliasLine once the line is split at its first '=': the name part and what follows the '='. */
  function ParseParts(namePart: string, afterEquals: string): (r: Alias)
    ensures r.name == [] ==> r == NoAlias
  {
    var name := TrimRight(TrimLeft(namePart));
    if name == [] then NoAlias
    else
      var commandPart := TrimLeft(afterEquals);
      if commandPart == [] then NoAlias
      else Alias(name, ExtractCommand(commandPart))
  }

  /** isAliasLine: the first non-blank character starts the five letters `alias`. */
  predicate IsAliasLine(line: string) {
    StartsWith(TrimLeft(line), "alias")
  }

  /**
   * isAliasLine accepts every line that starts with the keyword, and only
   * lines that contain it somewhere.
   */
  lemma {:induction false} IsAliasLineShape(line: string)
    ensures StartsWith(line, "alias") ==> IsAliasLine(line)
    ensures IsAliasLine(line) ==> Contains(line, "alias") && |line| >= 5
  {
    if StartsWith(line, "alias") {
      assert line[0] == 'a';
      TrimLeftNoop(line);
    }
    if IsAliasLine(line) {
      TrimLeftContains(line, "alias");
    }
  }

  /** extractQuotedString: the text after the quote at `start` up to the next quote of the same kind. */
  function ExtractQuotedString(str: string, start: nat): string {
    if start >= |str| then ""
    else
      var quote := str[start];
      var end := start + 1 + IndexOf(str[start + 1..], quote);
      if end == |str| then str[start + 1..] else str[start + 1..end]
  }

  /**
   * extractQuotedString returns "" past the end of the text; otherwise the
   * text right after the opening quote, free of that quote, and ending at the
   * closing quote or at the end of the text.
   */
  lemma {:induction false} ExtractQuotedShape(str: string, start: nat)
    ensures var r := ExtractQuotedString(str, start);
      && (start >= |str| ==> r == [])
      && (start < |str| ==>
        && start + 1 + |r| <= |str| && r == str[start + 1..start + 1 + |r|]
        && str[start] !in r
        && (start + 1 + |r| == |str| || str[start + 1 + |r|] == str[start]))
  {
  }

  /** The characters escapeCommand protects with a backslash. */
  predicate NeedsEscape(c: char) {
    c == '\'' || c == '"' || c == '\\' || c == '$'
  }

  /** What escapeCommand writes for one character. */
  function EscapeOf(c: char): string {
    if NeedsEscape(c) then ['\\', c] else [c]
  }

  /** The escaped form of `s`: a backslash before every character that needs one. */
  function Escaped(s: string): string {
    if s == [] then [] else EscapeOf(s[0]) + Escaped(s[1..])
  }

  /** The unescaped form of `s`: a backslash is dropped and the character after it kept as is. */
  function Unescaped(s: string): string {
    if s == [] then []
    else if s[0] == '\\' then (if |s| == 1 then [] else [s[1]] + Unescaped(s[2..]))
    else [s[0]] + Unescaped(s[1..])
  }

  /** How many characters of `s` need an escape. */
  function EscapeCount(s: string): nat {
    if s == [] then 0 else (if NeedsEscape(s[0]) then 1 else 0) + EscapeCount(s[1..])
  }

  /** Escaping one more character appends that character's escape. */
  lemma {:induction false} EscapedSnoc(s: string, c: char)
    ensures Escaped(s + [c]) == Escaped(s) + EscapeOf(c)
  {
    if s == [] {
      assert [c][1..] == [];
    } else {
      assert (s + [c])[1..] == s[1..] + [c];
      EscapedSnoc(s[1..], c);
    }
  }

  /** Unescaping the suffix from `i` on, when `s[i]` is an ordinary character. */
  lemma {:induction false} UnescapedPlain(s: string, i: nat)
    requires i < |s| && s[i] != '\\'
    ensures Unescaped(s[i..]) == [s[i]] + Unescaped(s[i + 1..])
  {
    assert s[i..][1..] == s[i + 1..];
  }

  /** Unescaping the suffix from a backslash at `i - 1` on: the character at `i`, then the rest. */
  lemma {:induction false} UnescapedPair(s: string, i: nat)
    requires 1 <= i < |s| && s[i - 1] == '\\'
    ensures Unescaped(s[i - 1..]) == [s[i]] + Unescaped(s[i + 1..])
  {
    assert s[i - 1..][2..] == s[i + 1..];
  }

  /** escapeCommand. */
  method EscapeCommand(command: string) returns (escaped: string)
    ensures escaped == Escaped(command)
  {
    escaped := "";
    for i := 0 to |command|
      invariant escaped == Escaped(command[..i])
    {
      var c := command[i];
      EscapedSnoc(command[..i], c);
      assert command[..i + 1] == command[..i] + [c];
      if c == '\'' || c == '"' || c == '\\' || c == '$' {
        escaped := escaped + ['\\', c];
      } else {
        escaped := escaped + [c];
      }
    }
    assert command[..|command|] == command;
  }

  /** unescapeString: a left-to-right scan that remembers whether the previous character was a lone backslash. */
  method UnescapeString(str: string) returns (unescaped: string)
    ensures unescaped == Unescaped(str)
  {
    unescaped := "";
    var prevBackslash := false;
    for i := 0 to |str|
      invariant !prevBackslash ==> unescaped + Unescaped(str[i..]) == Unescaped(str)
      invariant prevBackslash ==> 1 <= i && str[i - 1] == '\\' && unescaped + Unescaped(str[i - 1..]) == Unescaped(str)
    {
      var c := str[i];
      if prevBackslash {
        UnescapedPair(str, i);
        unescaped := unescaped + [c];
        prevBackslash := false;
      } else if c == '\\' {
        prevBackslash := true;
      } else {
        UnescapedPlain(str, i);
        unescaped := unescaped + [c];
      }
    }
    if prevBackslash {
      assert str[|str| - 1..] == ['\\'];
    } else {
      assert str[|str|..] == [];
    }
  }

  /** Unescaping undoes escaping. */
  lemma {:induction false} UnescapeEscape(s: string)
    ensures Unescaped(Escaped(s)) == s
  {
    if s != [] {
      UnescapeEscape(s[1..]);
      var e := Escaped(s);
      if NeedsEscape(s[0]) {
        assert e[2..] == Escaped(s[1..]);
      } else {
        assert e[1..] == Escaped(s[1..]);
      }
    }
  }

  /** Escaping adds exactly one character per character that needs an escape. */
  lemma {:induction false} EscapedLength(s: string)
    ensures |Escaped(s)| == |s| + EscapeCount(s)
  {
    if s != [] {
      EscapedLength(s[1..]);
    }
  }

  /**
   * A line the parser accepts starts, after its blanks, with `alias`; so the
   * isAliasLine pre-filter never drops a line that would parse.
   */
  lemma {:induction false} ParsedImpliesAliasLine(line: string)
    requires ParseAliasLine(line).name != []
    ensures IsAliasLine(line)
  {
  }

  /** parseAliasLine rejects a line of blanks, a line not starting with `alias`, and a line without '='. */
  lemma {:induction false} ParseRejectsShape(line: string)
    ensures !HasNonBlank(line) ==> ParseAliasLine(line) == NoAlias
    ensures !StartsWith(TrimLeft(line), "alias") ==> ParseAliasLine(line) == NoAlias
    ensures '=' !in TrimLeft(line) ==> ParseAliasLine(line) == NoAlias
  {
    if !HasNonBlank(line) {
      AllBlankTrimsToEmpty(line);
    }
  }

  /** The keyword holds no '=', so the first '=' of an `alias` line lies after it. */
  lemma {:induction false} KeywordPrecedesEquals(t: string)
    requires StartsWith(t, "alias")
    ensures 5 <= IndexOf(t, '=')
  {
  }

  /** parseAliasLine rejects an `alias` line whose name part or command part is blank. */
  lemma {:induction false} ParseRejectsBlankParts(line: string)
    requires StartsWith(TrimLeft(line), "alias") && IndexOf(TrimLeft(line), '=') < |TrimLeft(line)|
    ensures 5 <= IndexOf(TrimLeft(line), '=')
    ensures !HasNonBlank(TrimLeft(line)[5..IndexOf(TrimLeft(line), '=')]) ==> ParseAliasLine(line) == NoAlias
    ensures !HasNonBlank(TrimLeft(line)[IndexOf(TrimLeft(line), '=') + 1..]) ==> ParseAliasLine(line) == NoAlias
  {
    var t := TrimLeft(line);
    ParseTrimmedSplit(t, IndexOf(t, '='));
    PartsRejectBlank(t[5..IndexOf(t, '=')], t[IndexOf(t, '=') + 1..]);
  }

  /** ParseParts yields no alias when either part holds nothing but blanks. */
  lemma {:induction false} PartsRejectBlank(namePart: string, afterEquals: string)
    ensures !HasNonBlank(namePart) ==> ParseParts(namePart, afterEquals) == NoAlias
    ensures !HasNonBlank(afterEquals) ==> ParseParts(namePart, afterEquals) == NoAlias
  {
    if !HasNonBlank(namePart) {
      AllBlankTrimsToEmpty(namePart);
    }
    if !HasNonBlank(afterEquals) {
      AllBlankTrimsToEmpty(afterEquals);
    }
  }

  /** ParseTrimmed on a line that has the keyword and an '=': the split it parses. */
  lemma {:induction false} ParseTrimmedSplit(t: string, eq: nat)
    requires StartsWith(t, "alias") && eq == IndexOf(t, '=') && eq < |t|
    ensures 5 <= eq && ParseTrimmed(t) == ParseParts(t[5..eq], t[eq + 1..])
  {
    KeywordPrecedesEquals(t);
  }

  /** The blank before a valid name is the only thing the name trim removes. */
  lemma {:induction false} NameTrimmed(n: string)
    requires ValidName(n)
    ensures TrimRight(TrimLeft([' '] + n)) == n
  {
    ValidNameChars(n);
    assert ([' '] + n)[1..] == n;
  }

  /** A command wrapped in quote `q` is read back up to its first `q`. */
  lemma {:induction false} ExtractFromQuoted(c: string, q: char)
    requires IsQuote(q)
    ensures ExtractCommand([q] + c + [q]) == c[..IndexOf(c, q)]
  {
    var cmd := [q] + c + [q];
    var k := IndexOf(c, q);
    assert cmd[1..] == c + [q];
    if k < |c| {
      IndexOfIs(c + [q], q, k);
    } else {
      IndexOfIs(c + [q], q, |c|);
    }
    assert cmd[1..1 + k] == c[..k];
  }

  /** Where the parser splits a formatted line: after `alias`, at the '=' that ends the name. */
  lemma {:induction false} FormattedLineSplit(a: Alias)
    requires ValidName(a.name)
    ensures var line := FormatAlias(a);
      && TrimLeft(line) == line
      && StartsWith(line, "alias")
      && IndexOf(line, '=') == 6 + |a.name|
      && line[5..6 + |a.name|] == [' '] + a.name
      && line[7 + |a.name|..] == [QuoteFor(a.command)] + a.command + [QuoteFor(a.command)]
  {
    var q := QuoteFor(a.command);
    KeywordLineSplit(a.name, [q] + a.command + [q]);
  }

  /** The line `alias <name>=<rest>` for a valid name: no leading blanks, and its first '=' ends the name. */
  lemma {:induction false} KeywordLineSplit(n: string, rest: string)
    requires ValidName(n)
    ensures var line := "alias " + n + "=" + rest;
      && TrimLeft(line) == line
      && StartsWith(line, "alias")
      && IndexOf(line, '=') == 6 + |n|
      && line[5..6 + |n|] == [' '] + n
      && line[7 + |n|..] == rest
  {
    var line := "alias " + n + "=" + rest;
    TrimLeftNoop(line);
    assert line[..5] == "alias";
    FirstEqualsAfterName(n, rest);
    assert line[5..6 + |n|] == [' '] + n;
    assert line[7 + |n|..] == rest;
  }

  /** In `alias <name>=<rest>` the first '=' is the one after a valid name. */
  lemma {:induction false} FirstEqualsAfterName(n: string, rest: string)
    requires ValidName(n)
    ensures IndexOf("alias " + n + "=" + rest, '=') == 6 + |n|
  {
    var line := "alias " + n + "=" + rest;
    ValidNameChars(n);
    forall j | 0 <= j < 6 + |n|
      ensures line[j] != '='
    {
      if j >= 6 { assert line[j] == n[j - 6]; }
    }
    IndexOfIs(line, '=', 6 + |n|);
  }

  /** The name part and command part of a formatted line parse back to the name and the quoted command. */
  lemma {:induction false} PartsOfFormatted(n: string, c: string, q: char)
    requires ValidName(n) && IsQuote(q)
    ensures ParseParts([' '] + n, [q] + c + [q]) == Alias(n, c[..IndexOf(c, q)])
  {
    NameTrimmed(n);
    ExtractFromQuoted(c, q);
    TrimLeftNoop([q] + c + [q]);
  }

  /** The two parts of a line shaped like a formatted one parse back to the name and the quoted command. */
  lemma {:induction false} PartsOfFormattedLine(line: string, n: string, c: string, q: char)
    requires ValidName(n) && IsQuote(q) && 7 + |n| <= |line|
    requires line[5..6 + |n|] == [' '] + n
    requires line[6 + |n| + 1..] == [q] + c + [q]
    ensures ParseParts(line[5..6 + |n|], line[6 + |n| + 1..]) == Alias(n, c[..IndexOf(c, q)])
  {
    PartsOfFormatted(n, c, q);
  }

  /** A line `alias <name>='<text>` whose quote is never closed: the command runs to the end of the line. */
  lemma {:induction false} ParseUnclosedQuote(n: string, c: string)
    requires ValidName(n) && '\'' !in c
    ensures ParseAliasLine("alias " + n + "=" + (['\''] + c)) == Alias(n, c)
  {
    var line := "alias " + n + "=" + (['\''] + c);
    KeywordLineSplit(n, ['\''] + c);
    ParseUntrimmedSplit(line, 6 + |n|);
    UnclosedQuoteParts(n, c);
  }

  /** The parts of a line whose quote is never closed. */
  lemma {:induction false} UnclosedQuoteParts(n: string, c: string)
    requires ValidName(n) && '\'' !in c
    ensures ParseParts([' '] + n, ['\''] + c) == Alias(n, c)
  {
    var cmd := ['\''] + c;
    NameTrimmed(n);
    TrimLeftNoop(cmd);
    IndexOfIs(c, '\'', |c|);
    assert cmd[1..] == c;
    assert cmd[1..1 + |c|] == c;
  }

  /**
   * A line `alias <name>=<text>'` whose text starts with neither a blank nor a
   * quote and holds no '#': the unquoted command keeps the trailing quote.
   */
  lemma {:induction false} ParseStrayQuote(m: string, d: string)
    requires ValidName(m) && d != [] && !IsBlank(d[0]) && !IsQuote(d[0]) && '#' !in d
    ensures ParseAliasLine("alias " + m + "=" + (d + ['\''])) == Alias(m, d + ['\''])
  {
    var line := "alias " + m + "=" + (d + ['\'']);
    KeywordLineSplit(m, d + ['\'']);
    ParseUntrimmedSplit(line, 6 + |m|);
    StrayQuoteParts(m, d);
  }

  /** The parts of a line whose unquoted command ends in a stray quote. */
  lemma {:induction false} StrayQuoteParts(m: string, d: string)
    requires ValidName(m) && d != [] && !IsBlank(d[0]) && !IsQuote(d[0]) && '#' !in d
    ensures ParseParts([' '] + m, d + ['\'']) == Alias(m, d + ['\''])
  {
    var cmd := d + ['\''];
    NameTrimmed(m);
    assert cmd[0] == d[0];
    TrimLeftNoop(cmd);
    IndexOfIs(cmd, '#', |cmd|);
    assert cmd[..|cmd|] == cmd;
    assert !IsBlank(cmd[|cmd| - 1]);
    assert HasNonBlank(cmd);
  }

  /** parseAliasLine on a line with no leading blanks, the keyword and an '=': the split it parses. */
  lemma {:induction false} ParseUntrimmedSplit(line: string, eq: nat)
    requires TrimLeft(line) == line && StartsWith(line, "alias") && eq == IndexOf(line, '=') && eq < |line|
    ensures 5 <= eq && ParseAliasLine(line) == ParseParts(line[5..eq], line[eq + 1..])
  {
    ParseTrimmedSplit(line, eq);
  }

  /**
   * What the parser reads back from a formatted line with a valid name: the
   * name, and the command up to its first occurrence of the chosen quote.
   */
  lemma {:induction false} ParseFormatted(a: Alias)
    requires ValidName(a.name)
    ensures ParseAliasLine(FormatAlias(a)) == Alias(a.name, a.command[..IndexOf(a.command, QuoteFor(a.command))])
  {
    ParseKeywordLine(a.name, a.command, QuoteFor(a.command));
  }

  /** What the parser reads back from `alias <name>=<q><command><q>` for a valid name and a quote `q`. */
  lemma {:induction false} ParseKeywordLine(n: string, c: string, q: char)
    requires ValidName(n) && IsQuote(q)
    ensures ParseAliasLine("alias " + n + "=" + ([q] + c + [q])) == Alias(n, c[..IndexOf(c, q)])
  {
    var line := "alias " + n + "=" + ([q] + c + [q]);
    KeywordLineSplit(n, [q] + c + [q]);
    ParseUntrimmedSplit(line, 6 + |n|);
    PartsOfFormattedLine(line, n, c, q);
  }

  /**
   * Format then parse is the identity for a valid name and a command that does
   * not hold both kinds of quote.
   */
  lemma {:induction false} FormatParseRoundTrip(a: Alias)
    requires ValidName(a.name)
    requires !('\'' in a.command && '"' in a.command)
    ensures ParseAliasLine(FormatAlias(a)) == a
  {
    ParseFormatted(a);
    assert a.command[..|a.command|] == a.command;
  }

  /** A command holding both quote kinds comes back cut short at its first '"'. */
  lemma {:induction false} FormatParseTruncates(a: Alias)
    requires ValidName(a.name)
    requires '\'' in a.command && '"' in a.command
    ensures ParseAliasLine(FormatAlias(a)).command == a.command[..IndexOf(a.command, '"')]
    ensures |ParseAliasLine(FormatAlias(a)).command| < |a.command|
  {
    ParseFormatted(a);
  }

  /** The parser's quoted branch is the extractQuotedString helper applied at the opening quote. */
  lemma {:induction false} QuotedCommandIsExtractQuoted(cmd: string)
    requires cmd != [] && IsQuote(cmd[0])
    ensures ExtractCommand(cmd) == ExtractQuotedString(cmd, 0)
  {
  }

  /** The validation examples of the alias manager tests. */
  lemma {:induction false} ValidationExamples()
    ensures ValidName("ll") && ValidName("git_log")
    ensures !ValidName("") && !ValidName("with space")
    ensures ValidateCommand("ls -la") && !ValidateCommand("")
  {
    assert !IsNameChar("with space"[4]);
  }

  /** The quote the formatter picks for the command of the alias manager tests. */
  lemma {:induction false} SingleQuoteForExample()
    ensures QuoteFor("ls -la") == '\''
  {
    assert forall i :: 0 <= i < 6 ==> "ls -la"[i] != '\'';
  }

  /** The formatting example of the alias manager tests. */
  lemma {:induction false} FormatExample()
    ensures FormatAlias(Alias("ll", "ls -la")) == "alias ll='ls -la'"
  {
    SingleQuoteForExample();
    var line := FormatAlias(Alias("ll", "ls -la"));
    assert |line| == 17;
    assert forall i :: 0 <= i < 17 ==> line[i] == "alias ll='ls -la'"[i];
  }

  /** The parsing example of the alias manager tests: the formatted line of {ll, ls -la}. */
  lemma {:induction false} ParseExample()
    ensures ParseAliasLine("alias ll='ls -la'") == Alias("ll", "ls -la")
  {
    FormatExample();
    SingleQuoteForExample();
    FormatParseRoundTrip(Alias("ll", "ls -la"));
  }

  /** isAliasLine accepts the formatted line and a line that only starts with the keyword. */
  lemma {:induction false} IsAliasLineAccepts()
    ensures IsAliasLine("alias ll='ls'") && IsAliasLine("aliasfoo=1")
  {
    TrimLeftNoop("alias ll='ls'");
    TrimLeftNoop("aliasfoo=1");
  }

  /** isAliasLine rejects other shell statements and blank lines. */
  lemma {:induction false} IsAliasLineRejects()
    ensures !IsAliasLine("export X=1") && !IsAliasLine("\t")
  {
    TrimLeftNoop("export X=1");
  }

  /** The formatter's owner: it remembers a shell, which formatting ignores. */
  class AliasManager {
    var currentShell: Shell

    constructor (shell: Shell)
      ensures currentShell == shell
      ensures GetShell() == shell
    {
      currentShell := shell;
    }

    function GetShell(): Shell
      reads this
    {
      currentShell
    }

    method SetShell(shell: Shell)
      modifies this
      ensures currentShell == shell
      ensures GetShell() == shell
    {
      currentShell := shell;
    }
  }
}
