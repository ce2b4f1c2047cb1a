/**
 * The extension's routing and command logic: path normalisation and workspace
 * matching, the loopback port scan, the decision taken on each HTTP request,
 * and the commands that drive the request queue. The editor is represented by
 * its observable answers: the workspace folder paths, the active terminal, the
 * set of open terminals, the answer to a confirmation dialog and the outcome
 * of each port probe.
 */
module Extension {
  import opened Wrappers
  import opened Text
  import opened Host
  import opened QueueManager

  // ---------------------------------------------------------------- ports

  const PortRangeStart: int := 57843
  const PortRangeEnd: int := 57852

  /**
   * Probes the ports of the range in ascending order and returns the first one
   * that can be bound; `None` (the thrown error) when every probe fails.
   * `isPortAvailable` is the outcome of trying to listen on a loopback port.
   */
  method FindAvailablePort(isPortAvailable: int -> bool) returns (port: Option<int>)
    ensures port.Some? ==> PortRangeStart <= port.value <= PortRangeEnd && isPortAvailable(port.value)
    ensures port.Some? ==> forall p :: PortRangeStart <= p < port.value ==> !isPortAvailable(p)
    ensures port.None? <==> forall p :: PortRangeStart <= p <= PortRangeEnd ==> !isPortAvailable(p)
  {
    for candidate := PortRangeStart to PortRangeEnd + 1
      invariant forall p :: PortRangeStart <= p < candidate ==> !isPortAvailable(p)
    {
      if isPortAvailable(candidate) {
        return Some(candidate);
      }
    }
    return None;
  }

  /** With 57843 to 57845 taken and 57846 free, the listener gets 57846. */
  method FirstFreePortIsChosen() returns (port: Option<int>)
    ensures port == Some(57846)
  {
    var probe := p => !(57843 <= p <= 57845);
    assert probe(57846);
    port := FindAvailablePort(probe);
  }

  // ------------------------------------------------------------ workspace

  /** `getCurrentWorkspacePath`: the path of the first workspace folder, if any. */
  function CurrentWorkspacePath(folders: seq<string>): (current: Option<string>)
    ensures current.None? <==> folders == []
    ensures current.Some? ==> current.value == folders[0]
  {
    if folders == [] then None else Some(folders[0])
  }

  predicate IsSeparator(c: char) {
    c == '/' || c == '\\'
  }

  function SlashChar(c: char): char {
    if c == '\\' then '/' else c
  }

  /** `.replace(/\\/g, '/')`: every backslash becomes a slash. */
  function ReplaceBackslashes(s: string): (r: string)
    ensures |r| == |s|
    ensures forall i :: 0 <= i < |s| ==> r[i] == SlashChar(s[i])
  {
    if s == [] then [] else [SlashChar(s[0])] + ReplaceBackslashes(s[1..])
  }

  /** `.replace(/\/$/, '')`: at most one slash taken off the end. */
  function StripTrailingSlash(s: string): (r: string)
    ensures |r| == |s| || |r| == |s| - 1
    ensures r == s[..|r|]
    ensures |r| == |s| - 1 <==> s != [] && s[|s| - 1] == '/'
  {
    if s != [] && s[|s| - 1] == '/' then s[..|s| - 1] else s
  }

  /**
   * `normalizePath`: lower-case, backslashes turned into slashes, and one
   * trailing separator (of either kind) dropped.
   */
  function NormalizePath(path: string): (r: string)
    ensures '\\' !in r
    ensures forall i :: 0 <= i < |r| ==> !IsUpper(r[i])
    ensures |r| == if path != [] && IsSeparator(path[|path| - 1]) then |path| - 1 else |path|
    ensures forall i :: 0 <= i < |r| ==> r[i] == SlashChar(LowerChar(path[i]))
  {
    var slashed := ReplaceBackslashes(ToLower(path));
    assert forall i :: 0 <= i < |path| ==> slashed[i] == SlashChar(LowerChar(path[i]));
    assert path != [] ==> (IsSeparator(path[|path| - 1]) <==> slashed[|path| - 1] == '/');
    StripTrailingSlash(slashed)
  }

  /** Two paths that differ only in letter case and in the kind of separator. */
  ghost predicate SamePathSpelling(a: string, b: string) {
    |a| == |b| && forall i :: 0 <= i < |a| ==> SlashChar(LowerChar(a[i])) == SlashChar(LowerChar(b[i]))
  }

  /** Letter case and separator style do not change the normal form. */
  lemma NormalizeIgnoresSpelling(a: string, b: string)
    requires SamePathSpelling(a, b)
    ensures NormalizePath(a) == NormalizePath(b)
  {
  }

  /** One trailing separator does not change the normal form. */
  lemma NormalizeIgnoresTrailingSeparator(p: string, sep: char)
    requires IsSeparator(sep)
    requires p == [] || !IsSeparator(p[|p| - 1])
    ensures NormalizePath(p + [sep]) == NormalizePath(p)
  {
  }

  /** Only one trailing slash is removed, so normalising twice can differ from once. */
  lemma NormalizeNotIdempotent()
    ensures NormalizePath("a//") == "a/"
    ensures NormalizePath(NormalizePath("a//")) == "a"
  {
  }

  /**
   * `isWorkspaceMatch`: an absent or empty requested workspace matches (older
   * hooks send none); otherwise there must be a non-empty current workspace
   * whose normal form equals the requested one's.
   */
  function IsWorkspaceMatch(requested: Option<string>, folders: seq<string>): (r: bool)
    ensures requested.None? || requested == Some("") ==> r
    ensures r && requested.Some? && requested.value != "" ==>
              folders != [] && folders[0] != "" && NormalizePath(requested.value) == NormalizePath(folders[0])
    ensures requested.Some? && requested.value != "" && folders != [] && folders[0] != "" &&
              NormalizePath(requested.value) == NormalizePath(folders[0]) ==>
              r
  {
    if requested.None? || requested.value == "" then true
    else
      var current := CurrentWorkspacePath(folders);
      if current.None? || current.value == "" then false
      else NormalizePath(requested.value) == NormalizePath(current.value)
  }

  /**
   * A non-empty requested path matches a non-empty current workspace whenever it
   * spells the same path, possibly with different letter case, other separators
   * and one extra trailing separator on either side; without a current
   * workspace it never does.
   */
  lemma WorkspaceMatchRespellings(requested: string, current: string, folders: seq<string>, sep: char)
    requires requested != "" && IsSeparator(sep)
    ensures folders == [] || folders[0] == "" ==> !IsWorkspaceMatch(Some(requested), folders)
    ensures folders != [] && folders[0] == current && current != "" && SamePathSpelling(requested, current) ==>
              IsWorkspaceMatch(Some(requested), folders)
    ensures folders != [] && folders[0] == current && current != "" && !IsSeparator(current[|current| - 1]) &&
            SamePathSpelling(requested, current + [sep]) ==>
              IsWorkspaceMatch(Some(requested), folders)
    ensures folders != [] && folders[0] == current + [sep] && !IsSeparator(requested[|requested| - 1]) &&
            SamePathSpelling(requested, current) ==>
              IsWorkspaceMatch(Some(requested), folders)
  {
    if folders != [] && folders[0] == current + [sep] && !IsSeparator(requested[|requested| - 1]) &&
       SamePathSpelling(requested, current) {
      NormalizeIgnoresSpelling(requested, current);
      NormalizeIgnoresSpelling(requested + [sep], current + [sep]);
      NormalizeIgnoresTrailingSeparator(requested, sep);
    }
    if folders != [] && folders[0] == current && current != "" {
      if SamePathSpelling(requested, current) {
        NormalizeIgnoresSpelling(requested, current);
      }
      if !IsSeparator(current[|current| - 1]) && SamePathSpelling(requested, current + [sep]) {
        NormalizeIgnoresSpelling(requested, current + [sep]);
        NormalizeIgnoresTrailingSeparator(current, sep);
      }
    }
  }

  /** An absent or empty requested workspace matches, whatever the workspace. */
  lemma MatchWithoutRequestedWorkspace(folders: seq<string>)
    ensures IsWorkspaceMatch(None, folders)
    ensures IsWorkspaceMatch(Some(""), folders)
  {
  }

  /**
   * Against `/Proj`: a trailing slash and upper case still match, and so does a
   * request without the trailing slash that the workspace path carries.
   */
  lemma MatchRespelledWorkspace()
    ensures IsWorkspaceMatch(Some("/Proj/"), ["/Proj"])
    ensures IsWorkspaceMatch(Some("/PROJ"), ["/Proj"])
    ensures IsWorkspaceMatch(Some("/proj"), ["/Proj/"])
  {
    WorkspaceMatchRespellings("/Proj/", "/Proj", ["/Proj"], '/');
    assert SamePathSpelling("/PROJ", "/Proj");
    WorkspaceMatchRespellings("/PROJ", "/Proj", ["/Proj"], '/');
    assert SamePathSpelling("/proj", "/Proj");
    assert "/Proj" + ['/'] == "/Proj/";
    WorkspaceMatchRespellings("/proj", "/Proj", ["/Proj/"], '/');
  }

  /** Against `/Proj`, `/Other` does not match; without a workspace nothing requested does. */
  lemma MismatchedWorkspace()
    ensures !IsWorkspaceMatch(Some("/Other"), ["/Proj"])
    ensures !IsWorkspaceMatch(Some("/Proj"), [])
  {
    assert NormalizePath("/Other")[1] == 'o';
    assert NormalizePath("/Proj")[1] == 'p';
  }

  /** A Windows spelling with a trailing backslash matches `c:/proj`. */
  lemma MatchWindowsSpelling()
    ensures IsWorkspaceMatch(Some("C:\\Proj\\"), ["c:/proj"])
  {
    assert SamePathSpelling("C:\\Proj\\", "c:/proj" + ['/']);
    WorkspaceMatchRespellings("C:\\Proj\\", "c:/proj", ["c:/proj"], '/');
  }

  // -------------------------------------------------------------- routing

  const AddRequestPath: string := "/addRequest"

  /** What the listener answers, and whether it runs the hook command. */
  datatype Response = Response(status: int, body: string, runsHook: bool)

  /**
   * The request handler's decision: only `POST /addRequest` is served; on a
   * workspace match it answers `OK` and runs the hook command, otherwise `SKIP`.
   * `workspace` is the form body's `workspace` value, if any.
   */
  function RouteRequest(httpMethod: string, url: string, workspace: Option<string>, folders: seq<string>): (r: Response)
    ensures r.status == 404 <==> !(httpMethod == "POST" && url == AddRequestPath)
    ensures r.status == 404 ==> !r.runsHook && r.body == "Not Found"
    ensures r.status != 404 ==> r.status == 200 && (r.runsHook <==> IsWorkspaceMatch(workspace, folders))
    ensures r.status == 200 ==> r.body == if r.runsHook then "OK" else "SKIP"
  {
    if httpMethod == "POST" && url == AddRequestPath then
      if IsWorkspaceMatch(workspace, folders) then Response(200, "OK", true)
      else Response(200, "SKIP", false)
    else Response(404, "Not Found", false)
  }

  // ------------------------------------------------------------- commands

  /** The prompt recorded for requests that come from the hook. */
  const HookQuestion: string := "사용자 입력이 필요합니다"

  /** The confirming button of the clear-queue dialog. */
  const DeleteLabel: string := "삭제"

  /** `addRequestFromHook`: queues the active terminal, if there is one. */
  method AddRequestFromHook(m: TerminalQueueManager, active: Option<Terminal>, now: int)
    modifies m
    ensures active.None? ==> m.queue == old(m.queue) && m.events == old(m.events)
    ensures active.Some? ==> m.queue == old(m.queue) + [TerminalInputRequest(active.value, HookQuestion, now)]
    ensures active.Some? ==> m.events == old(m.events) + [|m.queue|]
  {
    if active.None? {
      return;
    }
    m.Enqueue(active.value, now, HookQuestion);
  }

  /** Handles one request to the listener, running the hook command on a match. */
  method ServeRequest(m: TerminalQueueManager, httpMethod: string, url: string, workspace: Option<string>,
                      folders: seq<string>, active: Option<Terminal>, now: int)
    returns (response: Response)
    modifies m
    ensures response == RouteRequest(httpMethod, url, workspace, folders)
    ensures response.runsHook && active.Some? ==>
              m.queue == old(m.queue) + [TerminalInputRequest(active.value, HookQuestion, now)] &&
              m.events == old(m.events) + [|m.queue|]
    ensures !(response.runsHook && active.Some?) ==> m.queue == old(m.queue) && m.events == old(m.events)
  {
    response := RouteRequest(httpMethod, url, workspace, folders);
    if response.runsHook {
      AddRequestFromHook(m, active, now);
    }
  }

  /**
   * What is left of the queue once the requests at its head whose terminal has
   * been closed are skipped: a suffix of the queue that is empty or starts with
   * an open terminal, and everything before it is for closed terminals.
   */
  function DropClosed(queue: seq<TerminalInputRequest>, live: set<Terminal>): (rest: seq<TerminalInputRequest>)
    ensures |rest| <= |queue|
    ensures rest != [] ==> rest[0].terminal in live
  {
    if queue == [] || queue[0].terminal in live then queue else DropClosed(queue[1..], live)
  }

  /**
   * `DropClosed` only drops a prefix, and everything it drops is for a closed
   * terminal.
   */
  lemma {:induction false} DropClosedDropsOnlyClosed(queue: seq<TerminalInputRequest>, live: set<Terminal>)
    ensures var rest := DropClosed(queue, live);
            rest == queue[|queue| - |rest|..] &&
            forall i :: 0 <= i < |queue| - |rest| ==> queue[i].terminal !in live
  {
    if queue != [] && queue[0].terminal !in live {
      DropClosedDropsOnlyClosed(queue[1..], live);
    }
  }

  /** The lengths fired by `k` successive dequeues from a queue of length `n`. */
  function Countdown(n: int, k: nat): seq<int> {
    if k == 0 then [] else Countdown(n, k - 1) + [n - k]
  }

  /** The `i`-th fire of the countdown carries the length left after `i + 1` dequeues. */
  lemma {:induction false} CountdownAt(n: int, k: nat, i: nat)
    requires i < k
    ensures |Countdown(n, k)| == k && Countdown(n, k)[i] == n - 1 - i
  {
    if i < k - 1 {
      CountdownAt(n, k - 1, i);
    } else if k > 1 {
      CountdownAt(n, k - 1, 0);
    }
  }

  /**
   * The stale-skip part of `nextInQueue`: while the head's terminal is no longer
   * open, dequeues it (the command re-runs itself as long as the queue is not
   * empty). Returns the skipped requests and the head that stopped the scan.
   */
  method SkipClosedHeads(m: TerminalQueueManager, live: set<Terminal>)
    returns (skipped: seq<TerminalInputRequest>, head: Option<TerminalInputRequest>)
    modifies m
    ensures old(m.queue) == skipped + m.queue
    ensures m.queue == DropClosed(old(m.queue), live)
    ensures forall i :: 0 <= i < |skipped| ==> skipped[i].terminal !in live
    ensures head.None? <==> m.queue == []
    ensures head.Some? ==> head.value == m.queue[0] && head.value.terminal in live
    ensures m.events == old(m.events) + Countdown(|old(m.queue)|, |skipped|)
  {
    ghost var q0, e0 := m.queue, m.events;
    skipped := [];
    head := m.Peek();
    while head.Some? && head.value.terminal !in live
      invariant q0 == skipped + m.queue
      invariant head.None? <==> m.queue == []
      invariant head.Some? ==> head.value == m.queue[0]
      invariant forall i :: 0 <= i < |skipped| ==> skipped[i].terminal !in live
      invariant DropClosed(m.queue, live) == DropClosed(q0, live)
      invariant m.events == e0 + Countdown(|q0|, |skipped|)
      decreases |m.queue|
    {
      SkipOneClosed(q0, skipped, m.queue, live);
      var closed := m.Dequeue();
      skipped := skipped + [head.value];
      head := m.Peek();
    }
    assert DropClosed(m.queue, live) == m.queue;
  }

  /** One step of the skip loop, stated on values. */
  lemma SkipOneClosed(q0: seq<TerminalInputRequest>, skipped: seq<TerminalInputRequest>,
                      queue: seq<TerminalInputRequest>, live: set<Terminal>)
    requires q0 == skipped + queue && queue != [] && queue[0].terminal !in live
    ensures q0 == (skipped + [queue[0]]) + queue[1..]
    ensures DropClosed(queue[1..], live) == DropClosed(queue, live)
    ensures Countdown(|q0|, |skipped| + 1) == Countdown(|q0|, |skipped|) + [|queue| - 1]
  {
    assert queue == [queue[0]] + queue[1..];
  }

  /**
   * `nextInQueue`: skips (dequeues) the requests at the head whose terminal is
   * no longer open, then focuses the first open one and dequeues it. `live` is
   * the set of open terminals, `skipped` the closed ones reported on the way.
   */
  method NextInQueue(m: TerminalQueueManager, live: set<Terminal>)
    returns (focused: Option<Terminal>, skipped: seq<TerminalInputRequest>)
    modifies m
    ensures old(m.queue) == skipped + DropClosed(old(m.queue), live)
    ensures DropClosed(old(m.queue), live) == [] ==> focused == None && m.queue == []
    ensures DropClosed(old(m.queue), live) != [] ==>
              focused == Some(DropClosed(old(m.queue), live)[0].terminal) &&
              m.queue == DropClosed(old(m.queue), live)[1..]
    ensures forall i :: 0 <= i < |old(m.queue)| - |m.queue| && old(m.queue)[i].terminal in live ==>
              i == |old(m.queue)| - |m.queue| - 1 && focused == Some(old(m.queue)[i].terminal)
    ensures m.events == old(m.events) + Countdown(|old(m.queue)|, |old(m.queue)| - |m.queue|)
  {
    focused := None;
    skipped := [];
    if m.IsEmpty() {
      assert m.events == old(m.events) + Countdown(0, 0);
      return;
    }
    var request;
    skipped, request := SkipClosedHeads(m, live);
    ghost var rest := m.queue;
    if request.Some? {
      focused := Some(request.value.terminal);
      var done := m.Dequeue();
      assert Countdown(|old(m.queue)|, |skipped| + 1) == Countdown(|old(m.queue)|, |skipped|) + [|m.queue|];
    }
    OnlyTheFocusedIsLive(old(m.queue), skipped, rest, live, |old(m.queue)| - |m.queue|);
  }

  /**
   * Of the first `taken` requests of `skipped + rest`, where every skipped one
   * is for a closed terminal and at most the head of `rest` is also taken, only
   * that head can be for an open terminal.
   */
  lemma OnlyTheFocusedIsLive(q: seq<TerminalInputRequest>, skipped: seq<TerminalInputRequest>,
                             rest: seq<TerminalInputRequest>, live: set<Terminal>, taken: nat)
    requires q == skipped + rest
    requires forall i :: 0 <= i < |skipped| ==> skipped[i].terminal !in live
    requires |skipped| <= taken <= |skipped| + 1 && taken <= |q|
    ensures forall i :: 0 <= i < taken && q[i].terminal in live ==> i == taken - 1 && i == |skipped| && q[i] == rest[0]
  {
  }

  /** `clearQueue`: empties a non-empty queue once the user confirms with "삭제". */
  method ClearQueue(m: TerminalQueueManager, answer: Option<string>)
    modifies m
    ensures old(m.queue) != [] && answer == Some(DeleteLabel) ==>
              m.queue == [] && m.events == old(m.events) + [0]
    ensures !(old(m.queue) != [] && answer == Some(DeleteLabel)) ==>
              m.queue == old(m.queue) && m.events == old(m.events)
  {
    var count := m.Length();
    if count == 0 {
      return;
    }
    if answer == Some(DeleteLabel) {
      m.Clear();
    }
  }

  /** The terminal-close listener: forgets every request for the closed terminal. */
  method OnDidCloseTerminal(m: TerminalQueueManager, closed: Terminal)
    modifies m
    ensures m.queue == Without(old(m.queue), closed)
    ensures m.events == old(m.events) + (if Pending(old(m.queue), closed) then [|m.queue|] else [])
  {
    var removed := m.Remove(closed);
  }
}
