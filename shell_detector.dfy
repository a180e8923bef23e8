/**
 * Shell detection (src/shelldetector.cpp). The operating-system lookups the
 * source performs (getenv("SHELL"), getenv("HOME"), getpwuid, the parent
 * process name read from /proc, fs::exists) are gathered in an `Env` value, so
 * every operation is a total function of its inputs.
 */
module ShellDetection {
  import opened Wrappers
  import opened Text

  datatype Shell = BASH | ZSH | FISH | UNKNOWN

  /** What the process can observe about its surroundings. */
  datatype Env = Env(
    shellVar: Option<string>,     // getenv("SHELL")
    homeVar: Option<string>,      // getenv("HOME")
    passwdHome: Option<string>,   // getpwuid(getuid())->pw_dir, None when the lookup fails
    parentProcess: string,        // contents of /proc/<ppid>/comm, "" when unreadable
    existing: set<string>)        // paths for which fs::exists holds

  /** The order in which every detection phase tries the shells. */
  const Priority: seq<Shell> := [ZSH, BASH, FISH]

  /** The substring that identifies a shell in a program path or process name. */
  function Keyword(s: Shell): string {
    match s
    case ZSH => "zsh"
    case BASH => "bash"
    case FISH => "fish"
    case UNKNOWN => ""
  }

  /** The configuration file of a shell, relative to the home directory. */
  function RcFile(s: Shell): string {
    match s
    case ZSH => ".zshrc"
    case BASH => ".bashrc"
    case FISH => ".config/fish/config.fish"
    case UNKNOWN => ""
  }

  /** The first shell of `order` that is in `found`, or UNKNOWN when there is none. */
  function FirstIn(order: seq<Shell>, found: set<Shell>): (r: Shell)
    requires UNKNOWN !in order
    ensures r == UNKNOWN <==> forall i :: 0 <= i < |order| ==> order[i] !in found
  {
    if order == [] then UNKNOWN
    else if order[0] in found then order[0]
    else
      var r := FirstIn(order[1..], found);
      assert forall i :: 1 <= i < |order| ==> order[i] == order[1..][i - 1];
      r
  }

  /** A shell FirstIn returns is in `found`, and every shell before it in the order is not. */
  lemma {:induction false} FirstInIsFirst(order: seq<Shell>, found: set<Shell>)
    requires UNKNOWN !in order
    ensures var r := FirstIn(order, found);
      r != UNKNOWN ==>
        exists i :: 0 <= i < |order| && order[i] == r && r in found &&
          forall j :: 0 <= j < i ==> order[j] !in found
  {
    if order != [] && order[0] !in found {
      var r := FirstIn(order[1..], found);
      FirstInIsFirst(order[1..], found);
      if r != UNKNOWN {
        var i :| 0 <= i < |order[1..]| && order[1..][i] == r && r in found &&
          forall j :: 0 <= j < i ==> order[1..][j] !in found;
        assert order[i + 1] == r;
        assert forall j :: 1 <= j < i + 1 ==> order[j] == order[1..][j - 1];
      }
    } else if order != [] {
      assert order[0] == FirstIn(order, found);
    }
  }

  /** The shells whose keyword occurs in `name`. */
  function Matching(name: string): (found: set<Shell>)
    ensures forall s :: s in found <==> s != UNKNOWN && Contains(name, Keyword(s))
  {
    set s | s in {BASH, ZSH, FISH} && Contains(name, Keyword(s))
  }

  /** The substring classification used on $SHELL and on the parent process name. */
  function Classify(name: string): Shell {
    FirstIn(Priority, Matching(name))
  }

  /** Classify tests for "zsh", then "bash", then "fish". */
  lemma {:induction false} ClassifyInOrder(name: string)
    ensures Classify(name) ==
      if Contains(name, "zsh") then ZSH
      else if Contains(name, "bash") then BASH
      else if Contains(name, "fish") then FISH
      else UNKNOWN
  {
    var found := Matching(name);
    assert ZSH in found <==> Contains(name, "zsh");
    assert BASH in found <==> Contains(name, "bash");
    assert FISH in found <==> Contains(name, "fish");
    assert Priority[1..] == [BASH, FISH] && [BASH, FISH][1..] == [FISH] && [FISH][1..] == [];
    assert FirstIn([FISH], found) == if FISH in found then FISH else UNKNOWN;
    assert FirstIn([BASH, FISH], found) == if BASH in found then BASH else FirstIn([FISH], found);
  }

  /** detectFromEnvironment: an unset SHELL is UNKNOWN, otherwise the first of zsh, bash, fish it contains. */
  function DetectFromEnvironment(env: Env): (r: Shell)
    ensures env.shellVar.None? ==> r == UNKNOWN
    ensures env.shellVar.Some? && Contains(env.shellVar.value, "zsh") ==> r == ZSH
    ensures r == BASH <==> env.shellVar.Some? && !Contains(env.shellVar.value, "zsh") && Contains(env.shellVar.value, "bash")
    ensures r == FISH <==> env.shellVar.Some? && !Contains(env.shellVar.value, "zsh") &&
                           !Contains(env.shellVar.value, "bash") && Contains(env.shellVar.value, "fish")
    ensures r == UNKNOWN <==>
      (env.shellVar.None? ||
       (!Contains(env.shellVar.value, "zsh") && !Contains(env.shellVar.value, "bash") && !Contains(env.shellVar.value, "fish")))
  {
    match env.shellVar
    case None => UNKNOWN
    case Some(path) =>
      ClassifyInOrder(path);
      Classify(path)
  }

  /** The home directory: $HOME, else the password database entry. */
  function HomeDir(env: Env): Option<string> {
    if env.homeVar.Some? then env.homeVar else env.passwdHome
  }

  /** expandHome: replace a leading '~' by the home directory when one is known. */
  function ExpandHome(path: string, env: Env): (r: string)
    ensures path == [] || path[0] != '~' || HomeDir(env).None? ==> r == path
    ensures path != [] && path[0] == '~' && HomeDir(env).Some? ==>
      StartsWith(r, HomeDir(env).value) && r[|HomeDir(env).value|..] == path[1..]
    ensures HomeDir(env).Some? && HomeDir(env).value != [] && HomeDir(env).value[0] != '~' ==>
      r == [] || r[0] != '~' || r == path
  {
    if path == [] || path[0] != '~' then path
    else match HomeDir(env)
      case None => path
      case Some(home) => home + path[1..]
  }

  /** getConfigFilePath: the configuration file of a known shell, "" for UNKNOWN. */
  function GetConfigFilePath(shell: Shell, env: Env): (r: string)
    ensures r == [] <==> shell == UNKNOWN
    ensures shell != UNKNOWN ==> r == ExpandHome("~", env) + "/" + RcFile(shell)
  {
    var home := ExpandHome("~", env);
    match shell
    case BASH => home + "/" + ".bashrc"
    case ZSH => home + "/" + ".zshrc"
    case FISH => home + "/" + ".config/fish/config.fish"
    case UNKNOWN => ""
  }

  /** getShellName. */
  function GetShellName(shell: Shell): string {
    match shell
    case BASH => "BASH"
    case ZSH => "ZSH"
    case FISH => "FISH"
    case UNKNOWN => "UNKNOWN"
  }

  /** Distinct shells have distinct names, so the name identifies the shell. */
  lemma {:induction false} ShellNameInjective(a: Shell, b: Shell)
    requires GetShellName(a) == GetShellName(b)
    ensures a == b
  {
  }

  /** The shells whose configuration file exists in `env`. */
  function WithConfig(env: Env): (found: set<Shell>)
    ensures forall s :: s in found <==> s != UNKNOWN && GetConfigFilePath(s, env) in env.existing
  {
    set s | s in {BASH, ZSH, FISH} && GetConfigFilePath(s, env) in env.existing
  }

  /** detectFromConfigFiles: probe ~/.zshrc, ~/.bashrc, ~/.config/fish/config.fish in that order. */
  method DetectFromConfigFiles(env: Env) returns (r: Shell)
    ensures r == FirstIn(Priority, WithConfig(env))
    ensures r == UNKNOWN <==> forall i :: 0 <= i < |Priority| ==> GetConfigFilePath(Priority[i], env) !in env.existing
  {
    var home := ExpandHome("~", env);
    var configs := [(ZSH, home + "/" + ".zshrc"), (BASH, home + "/" + ".bashrc"),
                    (FISH, home + "/" + ".config/fish/config.fish")];
    ghost var found := WithConfig(env);
    for i := 0 to |configs|
      invariant forall j :: 0 <= j < i ==> Priority[j] !in found
      invariant FirstIn(Priority, found) == FirstIn(Priority[i..], found)
    {
      assert configs[i].0 == Priority[i] && configs[i].1 == GetConfigFilePath(Priority[i], env);
      if configs[i].1 in env.existing {
        return configs[i].0;
      }
      assert Priority[i..][1..] == Priority[i + 1..];
    }
    return UNKNOWN;
  }

  /**
   * detectShell: $SHELL first, then the configuration files, then the parent
   * process name, and BASH when all three are inconclusive.
   */
  method DetectShell(env: Env) returns (r: Shell)
    ensures r != UNKNOWN
    ensures DetectFromEnvironment(env) != UNKNOWN ==> r == DetectFromEnvironment(env)
    ensures DetectFromEnvironment(env) == UNKNOWN && FirstIn(Priority, WithConfig(env)) != UNKNOWN ==>
      r == FirstIn(Priority, WithConfig(env))
    ensures DetectFromEnvironment(env) == UNKNOWN && FirstIn(Priority, WithConfig(env)) == UNKNOWN ==>
      r == if Classify(env.parentProcess) != UNKNOWN then Classify(env.parentProcess) else BASH
  {
    var fromEnv := DetectFromEnvironment(env);
    if fromEnv != UNKNOWN {
      return fromEnv;
    }
    var fromConfig := DetectFromConfigFiles(env);
    if fromConfig != UNKNOWN {
      return fromConfig;
    }
    var parent := env.parentProcess;
    ClassifyInOrder(parent);
    if parent != [] {
      if Contains(parent, "zsh") { return ZSH; }
      if Contains(parent, "bash") { return BASH; }
      if Contains(parent, "fish") { return FISH; }
    }
    return BASH;
  }

  /** Expanding twice changes nothing when the home directory does not itself start with '~'. */
  lemma {:induction false} ExpandHomeIdempotent(path: string, env: Env)
    requires HomeDir(env).Some? ==> HomeDir(env).value != [] && HomeDir(env).value[0] != '~'
    ensures ExpandHome(ExpandHome(path, env), env) == ExpandHome(path, env)
  {
  }
}
