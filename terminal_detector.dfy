/**
 * Which terminals belong to the current workspace, and which look like they
 * run Claude Code. A terminal's working directory comes from the operating
 * system; here it is the answer `cwdOf` gives, absent when the lookup fails.
 */
module TerminalDetector {
  import opened Wrappers
  import opened Text
  import opened Host
  import opened Sequences

  /**
   * `isTerminalInCurrentWorkspace`: the terminal has a known, non-empty working
   * directory, there is at least one workspace folder, and some folder path is
   * a prefix of that directory (a plain, case-sensitive string prefix).
   */
  predicate IsTerminalInCurrentWorkspace(cwd: Option<string>, folders: seq<string>)
    ensures IsTerminalInCurrentWorkspace(cwd, folders) ==> cwd.Some? && cwd.value != "" && folders != []
    ensures IsTerminalInCurrentWorkspace(cwd, folders) ==>
              exists i :: 0 <= i < |folders| && |folders[i]| <= |cwd.value| && cwd.value[..|folders[i]|] == folders[i]
  {
    if cwd.None? || cwd.value == "" then false
    else if folders == [] then false
    else exists i :: 0 <= i < |folders| && StartsWith(cwd.value, folders[i])
  }

  /** Whether the lookup answer of a terminal puts it in the workspace. */
  function InWorkspace(cwdOf: Terminal -> Option<string>, folders: seq<string>): Terminal -> bool {
    (terminal: Terminal) => IsTerminalInCurrentWorkspace(cwdOf(terminal), folders)
  }

  /**
   * The three outcomes: no directory or an empty one, no folders, and
   * otherwise membership by prefix.
   */
  lemma InWorkspaceCases(cwd: Option<string>, folders: seq<string>)
    ensures cwd.None? || cwd == Some("") ==> !IsTerminalInCurrentWorkspace(cwd, folders)
    ensures folders == [] ==> !IsTerminalInCurrentWorkspace(cwd, folders)
    ensures cwd.Some? && cwd.value != "" ==>
              (IsTerminalInCurrentWorkspace(cwd, folders) <==>
               exists i :: 0 <= i < |folders| && StartsWith(cwd.value, folders[i]))
  {
  }

  /** A directory anywhere below (or at) a workspace folder is in the workspace. */
  lemma FolderContainsItsSubdirectories(folders: seq<string>, i: nat, below: string)
    requires i < |folders|
    requires folders[i] + below != ""
    ensures IsTerminalInCurrentWorkspace(Some(folders[i] + below), folders)
  {
  }

  /**
   * No separator boundary is checked: a sibling directory whose name extends
   * the folder's counts as inside it.
   */
  lemma SiblingWithSharedPrefixCounts()
    ensures IsTerminalInCurrentWorkspace(Some("/work/app-old"), ["/work/app"])
  {
    FolderContainsItsSubdirectories(["/work/app"], 0, "-old");
    assert "/work/app" + "-old" == "/work/app-old";
  }

  /** The prefix test is case-sensitive, unlike the hook's workspace match. */
  lemma PrefixIsCaseSensitive()
    ensures !IsTerminalInCurrentWorkspace(Some("/Work/app"), ["/work/app"])
  {
    assert "/Work/app"[..|"/work/app"|][1] == 'W';
  }

  /**
   * `getWorkspaceTerminals`: the terminals in the workspace, in the order the
   * editor lists them.
   */
  method GetWorkspaceTerminals(allTerminals: seq<Terminal>, cwdOf: Terminal -> Option<string>, folders: seq<string>)
    returns (workspaceTerminals: seq<Terminal>)
    ensures workspaceTerminals == Filter(allTerminals, InWorkspace(cwdOf, folders))
    ensures forall t :: t in workspaceTerminals <==>
              t in allTerminals && IsTerminalInCurrentWorkspace(cwdOf(t), folders)
    ensures IsSubsequence(workspaceTerminals, allTerminals)
  {
    var keep := InWorkspace(cwdOf, folders);
    workspaceTerminals := [];
    for i := 0 to |allTerminals|
      invariant workspaceTerminals == Filter(allTerminals[..i], keep)
    {
      var terminal := allTerminals[i];
      FilterSnoc(allTerminals[..i], terminal, keep);
      assert allTerminals[..i + 1] == allTerminals[..i] + [terminal];
      if IsTerminalInCurrentWorkspace(cwdOf(terminal), folders) {
        workspaceTerminals := workspaceTerminals + [terminal];
      }
    }
    assert allTerminals[..|allTerminals|] == allTerminals;
    FilterIsSubsequence(allTerminals, keep);
    forall t ensures t in workspaceTerminals <==> t in allTerminals && keep(t) {
      FilterMembership(allTerminals, keep, t);
    }
  }

  /** The name fragments that mark a Claude Code terminal. */
  const ClaudeNamePatterns: seq<string> := ["claude", "node", "uvx", "python"]

  /**
   * `isClaudeCodeTerminal`: the lower-cased name contains one of the patterns,
   * tried in the order the code lists them.
   */
  predicate IsClaudeCodeTerminal(terminal: Terminal)
    ensures IsClaudeCodeTerminal(terminal) <==>
              exists k :: 0 <= k < |ClaudeNamePatterns| && Includes(ToLower(terminal.name), ClaudeNamePatterns[k])
  {
    var name := ToLower(terminal.name);
    Includes(name, ClaudeNamePatterns[0]) || Includes(name, ClaudeNamePatterns[1]) ||
    Includes(name, ClaudeNamePatterns[2]) || Includes(name, ClaudeNamePatterns[3])
  }

  /** Names that differ only in letter case are classified alike. */
  lemma ClaudeCodeTerminalIgnoresCase(a: Terminal, b: Terminal)
    requires EqualIgnoringCase(a.name, b.name)
    ensures IsClaudeCodeTerminal(a) == IsClaudeCodeTerminal(b)
  {
    ToLowerIgnoresCase(a.name, b.name);
  }

  /** "Claude Code" is recognised whatever its case; "bash" is not. */
  lemma ClaudeCodeTerminalExamples(claude: Terminal, bash: Terminal)
    requires claude.name == "CLAUDE Code"
    requires bash.name == "bash"
    ensures IsClaudeCodeTerminal(claude)
    ensures !IsClaudeCodeTerminal(bash)
  {
    var lowered := ToLower(claude.name);
    assert lowered[..6] == "claude";
    assert StartsWith(lowered[0..], "claude");
    var b := ToLower(bash.name);
    assert b == "bash";
    assert !Includes(b, "claude") && !Includes(b, "python");
    assert forall i :: 0 <= i <= 4 ==> !StartsWith(b[i..], "node") by {
      assert b[..4] != "node" by { assert b[0] == 'b'; }
    }
    assert forall i :: 0 <= i <= 4 ==> !StartsWith(b[i..], "uvx") by {
      assert b[..3] != "uvx" by { assert b[0] == 'b'; }
      assert b[1..][..3] != "uvx" by { assert b[1] == 'a'; }
    }
  }
}
