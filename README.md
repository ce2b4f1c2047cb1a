# Claude terminal notifier — a Dafny model of its queue and routing core

The extension is an editor plug-in that remembers which terminals are waiting for
user input and lets the user jump to them one after another. This project models
its core in Dafny and proves what each operation does:

- **The input-request queue** (`TerminalQueueManager`, `queue_manager.dfy`). This is a class
  holding a `seq` of `TerminalInputRequest` records (terminal, question, timestamp).
  A ghost `events` log records the length passed to every change event the queue fires.
  The methods `Enqueue`, `Peek`, `Dequeue`, `Remove`, `Clear`, `GetAll` and `Dispose`
  and the queries `Length` and `IsEmpty` each state the new contents and the events fired.
- **The extension's routing and commands** (`extension.dfy`). This covers path
  normalisation, workspace matching, the port scan over 57843..57852 and the request
  handler's decision (404, `OK` and run the hook, or `SKIP`). It also covers the
  commands that drive the queue: `addRequestFromHook`, `nextInQueue` with its
  skipping of closed terminals, the confirmed `clearQueue` and the terminal-close listener.
- **The terminal detector** (`terminal_detector.dfy`). This covers the name test for
  Claude Code terminals, the workspace prefix test on a terminal's working directory,
  and the order-preserving workspace filter.

Supporting modules:
- `wrappers.dfy`: an `Option` type.
- `sequences.dfy`: `Filter`, the model of `Array.prototype.filter` and of a push-loop,
  with its order and multiplicity lemmas.
- `text.dfy`: `toLowerCase`, `includes` and `startsWith`.
- `host.dfy`: the editor's `Terminal`. It is a class, so `===` is reference equality;
  it carries a constant `name`.

The editor and the operating system appear as inputs:
- the workspace folder paths (`folders`);
- the active terminal (`active`);
- the set of open terminals (`live`);
- the answer to the clear-queue dialog (`answer`);
- the outcome of each port probe (`isPortAvailable`);
- a terminal's working-directory lookup (`cwdOf`);
- the clock (`now`).

Focusing a terminal is the `focused` result of `NextInQueue`.

Quirks of the code that the model keeps:
- `enqueue` appends unconditionally (src/queue-manager.ts:36). A terminal already in
  the queue is queued again, even though the comment at src/extension.ts:310 says the
  queue layer checks for duplicates. No deduplication is modelled or claimed.
- `dequeue` on an empty queue still fires an event carrying 0.
- `normalizePath` strips only one trailing slash. So it is not idempotent on paths
  ending in `//` (`NormalizeNotIdempotent`).
- `isTerminalInCurrentWorkspace` uses a plain, case-sensitive prefix test with no
  separator boundary (`SiblingWithSharedPrefixCounts`, `PrefixIsCaseSensitive`).

## Model

| member | source | states |
|---|---|---|
| QueueManager.TerminalQueueManager.constructor | src/queue-manager.ts:17-24 | a new manager has an empty queue and has fired no event |
| QueueManager.TerminalQueueManager.Enqueue | src/queue-manager.ts:29-41 | appends exactly one record with the given terminal, question and time at the tail; earlier entries are unchanged, so a terminal already queued is queued again; the length grows by one and one event fires with the new length |
| QueueManager.TerminalQueueManager.Peek | src/queue-manager.ts:46-48 | returns nothing exactly when the queue is empty, otherwise its head; changes neither the queue nor the events |
| QueueManager.TerminalQueueManager.Dequeue | src/queue-manager.ts:53-64 | on a non-empty queue returns the old head and keeps the old tail; on an empty one returns nothing and leaves it empty; in both cases fires one event with the new length (0 for the empty queue) |
| QueueManager.TerminalQueueManager.Remove | src/queue-manager.ts:69-80 | the queue becomes the old one without the terminal's requests; returns true exactly when the terminal had a pending request; fires one event with the new length only then |
| QueueManager.WithoutRemovesExactly | src/queue-manager.ts:71 | after filtering no request for the terminal is left; every other request keeps all its occurrences; the result is a subsequence of the old queue, so the relative order is kept |
| QueueManager.WithoutShortensIffPending | src/queue-manager.ts:70-73 | the length changes exactly when the terminal had a pending request; when it had none the queue is unchanged |
| QueueManager.TerminalQueueManager.Clear | src/queue-manager.ts:85-93 | leaves the queue empty; fires one event carrying 0 if the queue was non-empty, and nothing otherwise |
| QueueManager.TerminalQueueManager.Length | src/queue-manager.ts:98-100 | the number of pending requests; zero exactly when the queue is empty |
| QueueManager.TerminalQueueManager.IsEmpty | src/queue-manager.ts:105-107 | holds exactly when the length is 0 |
| QueueManager.TerminalQueueManager.GetAll | src/queue-manager.ts:112-114 | returns the current contents in queue order, as many as the length |
| QueueManager.TerminalQueueManager.Dispose | src/queue-manager.ts:132-135 | empties the queue without firing an event |
| QueueManager.FirstInFirstOut | src/queue-manager.ts:29-64 | on a fresh queue, enqueue A then B: peek sees A and leaves the length at 2; two dequeues return A then B, leaving length 1 after the first; a third returns nothing and the length is 0; the events fired are 1, 2, 1, 0, 0, the last 0 from the dequeue on the empty queue |
| QueueManager.Without | src/queue-manager.ts:71 | the filtered queue is no longer than the old one and holds no request for the terminal |
| QueueManager.Pending | src/queue-manager.ts:70-73 | the terminal has a pending request exactly when some request in the queue is for it |
| Sequences.Filter | src/queue-manager.ts:71 | filtering never makes a sequence longer |
| Sequences.FilterIsSubsequence | src/queue-manager.ts:71 | filtering keeps only passing elements and yields a subsequence of the input, in the input's order |
| Sequences.FilterMultiplicity | src/queue-manager.ts:71 | a passing element keeps every occurrence; a failing one has none left |
| Sequences.FilterMembership | src/terminal-detector.ts:105-110 | an element is in the filtered sequence exactly when it is in the input and passes |
| Sequences.FilterShortens | src/queue-manager.ts:71-73 | filtering shortens the sequence exactly when some element fails, and is the identity when all pass |
| Sequences.FilterSnoc | src/terminal-detector.ts:105-110 | filtering one more element appends it exactly when it passes |
| Text.ToLower | src/terminal-detector.ts:120 | keeps the length and lowers each character |
| Text.ToLowerIgnoresCase | src/terminal-detector.ts:120 | strings that differ only in letter case have the same lower-case form |
| Text.StartsWith | src/terminal-detector.ts:94 | holds exactly when the prefix is no longer than the string and agrees with it character by character |
| Text.Includes | src/terminal-detector.ts:123-126 | the empty string is included in every string; an included string is no longer than the whole; a prefix is included |
| Extension.FindAvailablePort | src/extension.ts:43-50 | returns a port in 57843..57852 whose probe succeeds, and no smaller port in the range succeeds; returns nothing exactly when every probe in the range fails |
| Extension.FirstFreePortIsChosen | src/extension.ts:13-14 | with 57843..57845 taken and 57846 free, the scan picks 57846 |
| Extension.CurrentWorkspacePath | src/extension.ts:55-62 | absent exactly when there is no workspace folder, otherwise the first folder's path |
| Extension.ReplaceBackslashes | src/extension.ts:69 | keeps the length and turns every backslash into a slash, leaving other characters alone |
| Extension.StripTrailingSlash | src/extension.ts:70 | the result is a prefix of the input, at most one character shorter, and shorter exactly when the input ends in `/` |
| Extension.NormalizePath | src/extension.ts:67-71 | the result has no backslash and no upper-case letter; each kept character is the lowered input character with backslash turned into slash; it is one shorter exactly when the input ends in a slash or backslash |
| Extension.NormalizeIgnoresSpelling | src/extension.ts:67-70 | paths that differ only in letter case and separator kind have the same normal form |
| Extension.NormalizeIgnoresTrailingSeparator | src/extension.ts:70 | one added trailing separator does not change the normal form |
| Extension.NormalizeNotIdempotent | src/extension.ts:70 | `a//` normalises to `a/`, which normalises again to `a`: only one slash is stripped |
| Extension.IsWorkspaceMatch | src/extension.ts:76-88 | an absent or empty requested workspace matches; a given, non-empty workspace matches exactly when there is a non-empty first workspace folder with the same normal form |
| Extension.WorkspaceMatchRespellings | src/extension.ts:76-88 | a requested path never matches without a non-empty current workspace; when there is one, the request matches if it spells the same path up to case, separator kind and one trailing separator on either the requested or the current path |
| Extension.MatchWithoutRequestedWorkspace | src/extension.ts:76-80 | an absent or empty requested workspace matches, for every list of workspace folders |
| Extension.MatchRespelledWorkspace | src/extension.ts:87 | against `/Proj`, both `/Proj/` and `/PROJ` match; `/proj` matches a workspace recorded as `/Proj/` |
| Extension.MismatchedWorkspace | src/extension.ts:82-87 | against `/Proj`, `/Other` does not match; with no workspace open a requested workspace does not match |
| Extension.MatchWindowsSpelling | src/extension.ts:87 | `C:\Proj\` matches `c:/proj` |
| Extension.RouteRequest | src/extension.ts:103-135 | 404 `Not Found` exactly when the request is not POST to `/addRequest`, and then the hook is not run; otherwise 200, and the hook runs exactly when the workspace matches, with body `OK` when it runs and `SKIP` when it does not |
| Extension.ServeRequest | src/extension.ts:111-131 | answers as the routing decision says; the queue and events change only when the hook runs and there is an active terminal, by exactly one request for it |
| Extension.AddRequestFromHook | src/extension.ts:296-319 | with no active terminal nothing changes; otherwise exactly one request for the active terminal, with the hook's fixed question, is appended and its event fired |
| Extension.DropClosed | src/extension.ts:195-206 | what is left after skipping closed heads is no longer than the queue and is empty or starts with an open terminal |
| Extension.DropClosedDropsOnlyClosed | src/extension.ts:195-206 | what is left is a suffix of the queue, and every request skipped before it is for a closed terminal |
| Extension.CountdownAt | src/queue-manager.ts:61 | the i-th of k successive dequeues from a queue of length n fires n - 1 - i |
| Extension.SkipClosedHeads | src/extension.ts:189-206 | dequeues exactly the leading requests of closed terminals, all reported as skipped, and stops at an open head or an empty queue; one event per dequeue with the decreasing lengths |
| Extension.NextInQueue | src/extension.ts:183-231 | an empty queue is left alone; otherwise closed heads are skipped and dequeued, the first open one is focused and then dequeued, and nothing after it is touched; every dequeued request of an open terminal is the focused one and the last dequeued; events fire with the decreasing lengths |
| Extension.OnlyTheFocusedIsLive | src/extension.ts:209-213 | among the dequeued requests only the last one, the focused head, can be for an open terminal |
| Extension.ClearQueue | src/extension.ts:264-284 | empties the queue, firing 0, only when it is non-empty and the answer is the delete button; otherwise the queue and events are unchanged |
| Extension.OnDidCloseTerminal | src/extension.ts:322-327 | drops every request for the closed terminal, firing one event with the new length only if it had any |
| TerminalDetector.IsTerminalInCurrentWorkspace | src/terminal-detector.ts:80-96 | a terminal is in the workspace only with a known, non-empty directory and at least one folder, and then some folder path is a prefix of that directory |
| TerminalDetector.InWorkspaceCases | src/terminal-detector.ts:80-96 | not in the workspace when the lookup gives nothing or an empty path, nor when there are no folders; otherwise in it exactly when some folder path is a prefix of the directory |
| TerminalDetector.FolderContainsItsSubdirectories | src/terminal-detector.ts:92-95 | any non-empty directory that starts with a workspace folder's path is in the workspace |
| TerminalDetector.SiblingWithSharedPrefixCounts | src/terminal-detector.ts:94 | `/work/app-old` counts as inside folder `/work/app`: there is no separator boundary check |
| TerminalDetector.PrefixIsCaseSensitive | src/terminal-detector.ts:94 | `/Work/app` is not inside folder `/work/app` |
| TerminalDetector.GetWorkspaceTerminals | src/terminal-detector.ts:101-113 | returns exactly the terminals that pass the workspace test, as a subsequence of the editor's list in its order |
| TerminalDetector.ClaudeCodeTerminalIgnoresCase | src/terminal-detector.ts:119-120 | names that differ only in letter case get the same answer |
| TerminalDetector.IsClaudeCodeTerminal | src/terminal-detector.ts:119-127 | a terminal is a Claude Code terminal exactly when one of `claude`, `node`, `uvx`, `python` occurs in its lower-cased name |
| TerminalDetector.ClaudeCodeTerminalExamples | src/terminal-detector.ts:119-127 | `CLAUDE Code` is recognised and `bash` is not |

## Left out

- Text.ToLower: lowers only the ASCII letters A–Z. JavaScript's `toLowerCase` also maps other Unicode letters, so names and paths with non-ASCII capitals are not modelled faithfully.
- QueueManager.TerminalQueueManager.Dispose: the host's event emitter drops any event fired after disposal. `events` still records such fires, so the log is the fires the code makes, not the events subscribers receive.
- Extension.FindAvailablePort: each probe is a pure answer. The bind attempt, its asynchronous resolution and the server that is opened and closed again are not modelled.
- Extension.NextInQueue: the open-terminal set is fixed for the whole call. In the code each re-run of the command (through `executeCommand`) reads the terminal list again, and other commands or events may run in between; that interleaving is not modelled.
- Extension.NextInQueue: the information and warning messages are not modelled. Neither is the "다음 항목" button that re-runs the command.
- Extension.ClearQueue: the queue is assumed unchanged between reading its length and the user's answer. In the code the dialog is awaited, and the hook command or the close listener can change the queue meanwhile. Requests added then are cleared too, and if the queue has emptied `clear` fires nothing, where the model fires 0.
- Extension.ServeRequest: the hook command runs synchronously here. In the code `executeCommand` schedules it, so the response can be sent before the queue changes.
- The HTTP server's lifecycle is not modelled. This covers `listen`, body accumulation, the `Access-Control-Allow-Origin` and `Content-Type` headers, error and teardown handlers, and the start-up messages.
- Form decoding with `URLSearchParams` is not modelled. The request's `workspace` value arrives already decoded, as an optional string.
- `getTerminalCwd` is not modelled: it uses shell integration, PowerShell, `pwdx` and `lsof`. Its answer is the input `cwdOf`.
- `Date.now` is replaced by the `now` parameter. `debug()`, `debugAllTerminals` and all console logging are left out because they only print diagnostics.
- The `simulateRequest` test command is left out. It only adds a request with a randomly chosen question, creating a terminal if none is active.
- `activate`, `deactivate`, `getQueueManager` and `getStatusBarManager` are left out. They only register commands and hand out the singletons.
- src/status-bar-manager.ts is not part of this model. It renders the count in the status bar.
- src/terminal-test.ts is not part of this model. It is a manual script that writes terminal titles.
