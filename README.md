# gitlab-clone-all, modelled in Dafny

gitlab-clone-all mirrors every repository visible to an account on a GitLab
instance. It has three parts:

- **Discovery** walks the project listing with keyset pagination.
- **Dispatch** runs one clone task (a worker) per discovered project.
- **Workers** each report one outcome per project.

This project models the decision rules between the network calls and the
git library, and proves properties of them:

- **The keyset pagination loop** (`keyset.dfy`).
  - A walk is a spec function `Keyset.Paginate` over a page oracle from cursor to page or error.
  - The walk is bounded by `fuel`, the number of requests allowed.
  - `Walk` records the cursors requested, the pages received and why the walk stopped.
- **`fetch_projects` of src/gitlab.rs** (`gitlab.dfy`).
  - It is a method with a `while` loop over the mutable cursor.
  - It sends on two channels (`channels.dfy`), each an append-only trace.
  - It is proved to send exactly the projects of `Paginate`'s pages, plus one `ToClone` per project.
- **The clone side of src/git.rs** (`git.dfy`):
  - `CloneMethod::from_str`;
  - the choice of URL and credentials, and the destination path (`paths.dfy` models `Path::join`);
  - the transfer-progress counters;
  - the classification of a clone's outcome into one terminal `ProjectAction`;
  - the `while let` dispatcher.
- **The stand-alone program of src/main.rs** (`legacy.dfy`):
  - the per-group pagination loop, which ends silently on a fetch error;
  - the sequential clone loop, which always clones over HTTPS into `/tmp/<seconds>` and reports each outcome.
- **The balance of announcements and resolutions** (`pipeline.dfy`, `projects.dfy`). It holds for any order in which the events arrive.

## Oracles and parameters

- **HTTP and JSON.** The HTTP GET together with JSON decoding is a function from URL to `Result<seq<Project>>`.
- **The URL.** It is modelled exactly.
  - A `u64` is rendered in decimal by `Basics.Decimal`.
  - `unwrap_or(0)` is `Keyset.IdAfter`.
- **The git2 clone.** It is a function from the planned `CloneRequest` to its outcome, plus the sequence of progress reports the callback receives.
- **Environment.** `HOME` and the clock's seconds are parameters.

## Behaviour worth knowing

**The final page.** A repeated final page is announced and published a
second time, because the sends come before the stop test
(src/gitlab.rs:64-80); see `Keyset.StopRule` and
`Keyset.RepeatedPageIsEmittedTwice`.

**Cursor 0.** `None` and `Some(0)` send the same `id_after=0` request. If the
first page ended with a project of id 0, the second request would repeat the
first URL. `GitLab.ConsecutiveUrlsDiffer` states this as the one exception.

## Model

| member | source | states |
|---|---|---|
| Basics.Decimal | src/gitlab.rs:24 | `u64::to_string`: the rendering is never empty, is all decimal digits, and has no leading zero except for the number 0 itself |
| Basics.DecimalRoundTrip | src/gitlab.rs:24 | the decimal rendering of a `u64` in a URL reads back as the same number, so different cursors give different `id_after` values |
| Paths.Join | src/git.rs:36 | `Path::join`: an absolute argument replaces the base; otherwise the result is the base, a `/` when the base does not already end in one, and the argument |
| Paths.JoinRelativeInjective | src/git.rs:36 | two relative paths joined onto the same root give the same destination only if they are equal |
| Projects.CountsCoverTrace | src/project.rs:2-13 | every event of an action trace is either a `ToClone` announcement or a terminal `Cloned`/`Failed` event |
| Projects.CountsIgnoreOrder | src/git.rs:39-40 | two traces holding the same events in any order (workers run as independent tasks) have the same announcement count and the same terminal count |
| Channels.Channel.Send | src/gitlab.rs:66-75 | a send appends exactly one value to the channel's trace and consumes nothing |
| Channels.Channel.Recv | src/git.rs:35 | a receive yields the oldest pending value and consumes it, or yields nothing once the channel is drained |
| Keyset.IdAfter | src/gitlab.rs:24 | `project_id_after.unwrap_or(0)`: a cursor sends its id, and no cursor sends 0 |
| Keyset.LastId | src/gitlab.rs:63 | definition: the next cursor is the id of the page's last project, or none for an empty page; its use is stated by `Keyset.CursorIsLastId` and `Keyset.EmittedStep` |
| Keyset.Continues | src/gitlab.rs:78 | definition: the loop goes on exactly when the next cursor is present and differs from the current one; its use is stated by `Keyset.StopRule` |
| Keyset.Paginate | src/gitlab.rs:56-82 | definition of the walk shared by `fetch_projects` and, through `Legacy.GroupPages`, the loop of src/main.rs:104-126: no fuel stops it, an error aborts it after one request, a page that does not continue ends it after that page, a continuing page is followed by the walk from its last id; its properties are the contracts of `Keyset.EmittedStep`, `Keyset.WalkShape`, `Keyset.CursorIsLastId` and `Keyset.StopRule` |
| Keyset.EmittedStep | src/gitlab.rs:57-82 | one loop iteration: no fuel stops the walk; a fetch error aborts it with that error and emits nothing more; a page that does not continue is emitted and ends the walk; a continuing page is emitted and the walk goes on from its last id |
| Keyset.WalkShape | src/gitlab.rs:56-60 | the first request uses the starting cursor; each received page is the server's answer to its request; there is exactly one request per page, plus the failed one of an aborted walk, with no retry; the walk never exceeds its fuel, and runs out only on a continuing last page |
| Keyset.CursorIsLastId | src/gitlab.rs:63-81 | every request after the first uses the id of the last project of the page before it |
| Keyset.StopRule | src/gitlab.rs:64-80 | all pages but the last continued the walk; the walk ends `Exhausted` exactly when its last page is empty or ends with the cursor it was requested with, and that page has been emitted |
| Keyset.ConsecutiveCursorsDiffer | src/gitlab.rs:78-81 | no request repeats the cursor of the request before it, and every request after the first carries a cursor |
| Keyset.HonestServerTerminates | src/gitlab.rs:57-82 | against a server whose pages lie above `id_after`, the loop ends by itself within `2^64 - id_after` requests |
| Keyset.KeysetServerDiscoversEachProjectOnce | src/gitlab.rs:24 | against a server that honours `id_after` and sorts each page ascending by id (`order_by=id&sort=asc`), the discovered projects are strictly increasing by id, so none is discovered twice |
| Keyset.RepeatedPageIsEmittedTwice | src/gitlab.rs:64-80 | a server repeating the same one-project page makes the loop emit that page twice, with two requests, before it stops |
| Keyset.TwoPagesScenario | src/gitlab.rs:56-82 | pages [1], [2] and an empty page give requests after none, 1 and 2, emit both projects and end normally |
| GitLab.ProjectsPageUrl | src/gitlab.rs:24 | the listing URL is the instance URL, the fixed listing path and query up to `id_after=`, then a non-empty run of decimal digits |
| GitLab.PageUrlDeterminesIdAfter | src/gitlab.rs:24 | two listing URLs of an instance are equal exactly when their cursors send the same `id_after` |
| GitLab.FirstRequestStartsAtZero | src/gitlab.rs:56 | discovery starts without a cursor, and its first URL ends in `id_after=0` |
| GitLab.FirstPageFailureAborts | src/gitlab.rs:58-60 | a failing first request aborts discovery with that error before anything is sent |
| GitLab.ConsecutiveUrlsDiffer | src/gitlab.rs:78-81 | consecutive requests go to different URLs, except a second request after a first page ending in id 0 |
| GitLab.Announcements | src/gitlab.rs:66-70 | the announcements for `n` projects are exactly `n` `ToClone` events |
| GitLab.AnnouncementsCountPages | src/gitlab.rs:64-76 | the number of `ToClone` events sent is the sum of the sizes of the pages received |
| GitLab.PublishPage | src/gitlab.rs:64-76 | one page appends its projects, in order, to the project trace and one `ToClone` per project to the action trace |
| GitLab.FetchProjects | src/gitlab.rs:50-84 | the loop performs the walk from no cursor; it returns `Exhausted` for `Ok(())`, or `Aborted` with the fetch error, which is propagated; the project trace gains every project of every received page in page order, and the action trace one `ToClone` per project, so the k-th announcement belongs to the k-th project; what was sent before an error stays sent |
| Git.ParseCloneMethod | src/git.rs:20-26 | the parse succeeds exactly on `"https"` and `"ssh"` and yields the method of that keyword; every other string gives `Err("no match")` |
| Git.ParseKeywordRoundTrip | src/git.rs:20-26 | parsing a method's keyword gives that method, and no other string gives it |
| Git.ParseIsCaseSensitive | src/git.rs:21-24 | `"HTTPS"`, `"Ssh"` and the empty string are rejected |
| Git.PlanClone | src/git.rs:59-78 | the clone uses the SSH URL for `Ssh` and the HTTP URL for `Https`; the key `$HOME/.ssh/id_rsa_gitlab` is attached if and only if the method is `Ssh`; the destination is the root joined with `path_with_namespace` |
| Git.DistinctPathsDistinctDestinations | src/git.rs:36 | projects with different relative namespaced paths are cloned into different directories |
| Git.TransferCounters.constructor | src/git.rs:41-42 | both counters start at 0 |
| Git.TransferCounters.OnTransferProgress | src/git.rs:46-50 | the callback replaces both counters with the report's values and lets the transfer continue |
| Git.Classify | src/git.rs:80-114 | every outcome gives a terminal action naming the project's path; the result is `Cloned` exactly for success or an `Exists` error, and carries the counters; every other error gives `Failed` with its text |
| Git.WorkerAction | src/git.rs:40-115 | the action of one worker is terminal and names the project's `path_with_namespace` |
| Git.CloneWorker | src/git.rs:40-115 | the worker's one action is the classification of the clone's outcome with the counters of the last progress report, or 0 when there was none |
| Git.ExistingDestinationIsCloned | src/git.rs:94-103 | an existing destination with no progress reports resolves as `Cloned` with 0 bytes and 0 objects |
| Git.DispatchAll | src/git.rs:35-116 | the dispatcher's actions for a sequence of received projects: one action per project |
| Git.DispatchAllElements | src/git.rs:35-116 | the dispatcher yields one action per project, in order, each the worker's action for that project |
| Git.EachProjectResolvedOnce | src/git.rs:35-116 | each received project produces exactly one terminal action, with that project's path, and no announcement |
| Git.SpawnWorker | src/git.rs:39-115 | one spawned task appends exactly its worker's action to the action trace |
| Git.CloneProjects | src/git.rs:29-120 | the dispatcher drains the project channel and appends the worker action of every pending project, in order, to the action trace |
| Legacy.GroupPageUrl | src/main.rs:42 | the group listing URL is the groups endpoint, the group id in decimal, the fixed listing path and query up to `id_after=`, then a non-empty run of decimal digits |
| Legacy.GroupPageUrlInjective | src/main.rs:42 | two group listing URLs are equal exactly when they name the same group and send the same `id_after` |
| Legacy.FirstGroupRequestStartsAtZero | src/main.rs:104 | a group's walk starts without a cursor, and its first URL names the group and ends in `id_after=0` |
| Legacy.GroupWalkStaysInGroup | src/main.rs:106 | every request of a group's walk differs from every listing URL of any other group |
| Legacy.SendPage | src/main.rs:114-117 | a page's projects are appended to the trace in page order |
| Legacy.FetchAllProjectsForGroup | src/main.rs:103-126 | the loop follows the keyset rule from no cursor and sends every project of every received page, in order; a fetch error ends it with nothing returned, and earlier sends remain |
| Legacy.FirstPageErrorSendsNothing | src/main.rs:107-111 | a group whose first request fails sends no project |
| Legacy.ScratchRootIsTmpSeconds | src/main.rs:64-68 | the clone root is `/tmp/` followed by the decimal seconds since the epoch; different seconds give different roots |
| Legacy.LegacyRequest | src/main.rs:72-94 | every clone uses the HTTP URL into the root joined with `path_with_namespace`, with the SSH key callback always registered |
| Legacy.ReportOf | src/main.rs:94-98 | only a successful clone is reported as cloned; every error, an existing destination included, is reported as a failure with its text |
| Legacy.AttemptOf | src/main.rs:71-100 | one iteration of the sequential loop: the attempt is for that project, over its HTTP URL into the root joined with its path, and is reported as cloned exactly when the clone succeeded |
| Legacy.AttemptsFor | src/main.rs:71-100 | the loop over a sequence of received projects gives one attempt per project |
| Legacy.EveryProjectAttemptedOnce | src/main.rs:71-100 | every received project is attempted exactly once, in order (the k-th attempt is that of the k-th project), over HTTPS into its path, whatever earlier attempts reported |
| Legacy.ExistingDestinationIsReportedAsFailure | src/main.rs:94-98 | for an existing destination, the sequential loop reports a failure while the worker of src/git.rs resolves the project as cloned |
| Legacy.CloneProjectsSequentially | src/main.rs:63-101 | the loop drains the channel and returns the attempts for every pending project, in order, under the scratch root |
| Pipeline.AnnouncementsBalanceResolutions | src/gitlab.rs:64-76 | however discovery's announcements and the workers' actions interleave, the action trace holds as many terminal events as `ToClone` events, and both equal the number of projects discovered |

## Left out

- HTTP client construction, the `PRIVATE-TOKEN` header and its validation, and timeouts (`make_http_client`). These are reqwest configuration.
- The GET request and JSON decoding (`fetch_projects_paginated`, `fetch_group_projects`). Both are the page oracle. serde is a foreign library.
- `fetch_groups` of src/main.rs. The group listing is one unpaginated GET.
- `main` of src/main.rs. It spawns the sequential `clone_projects` task (src/main.rs:131-133) and one discovery task per group (src/main.rs:140-150), then awaits only the group tasks (src/main.rs:151). Task spawning and joining are not modelled.
- Legacy.CloneProjectsSequentially: the contract, like `Legacy.EveryProjectAttemptedOnce`, describes the loop under the reading that the channel is eventually closed and drained. The program does not run it that way. `main` keeps its own sender `tx` (src/main.rs:130) while each group task holds a clone of it (src/main.rs:144), so the channel is never closed and `recv` never yields `None`. `main` also returns after `join_all` (src/main.rs:151-152) without awaiting the clone task, so projects still queued when it returns are never attempted.
- Concurrency.
  - There are no real tasks: tokio tasks, `join_all` and the concurrent run of discovery and dispatch are not modelled.
  - Channels have no capacity and no backpressure.
  - A failed `send(...).await.unwrap()` or `try_send(...).unwrap()` would panic; that is not modelled.
  - The dispatcher runs its workers one after another. `Projects.CountsIgnoreOrder` and `Pipeline.AnnouncementsBalanceResolutions` cover any interleaving of their events.
- GitLab.PublishPage: the two channels are separate traces. The order of sends across them, each `ToClone` just before its project, is stated only by position (the k-th announcement belongs to the k-th project).
- GitLab.FetchProjects: bounded by `fuel`. For an arbitrary server the loop in the source need not end, for example with answers that repeat the cursors 5, 3, 5, …. `OutOfFuel` means the source would still be paging. `Keyset.HonestServerTerminates` gives the fuel that suffices for a server that honours `id_after`.
- GitLab.FetchProjects: the error context "Failed to fetch projects" that wraps the propagated error is not modelled. `Aborted` carries the oracle's error text.
- Legacy.FetchAllProjectsForGroup: bounded by `fuel` in the same way.
- Logging: `log::debug!`, `println!`, `eprintln!` and the checkout progress callback. The sequential loop's report lines are modelled as the returned `Attempt` values.
- The git2 clone itself, `Cred::ssh_key`, and the panics inside the credentials callback (`username_from_url.unwrap()`, a missing `HOME`).
- Directory creation in src/main.rs (`create_dir(...).unwrap()`).
- `SystemTime::now()`. It is the parameter `now`.
- Git.CloneWorker: the counters are `usize`. They are modelled as unbounded naturals, because the worker only stores them and never adds to them.
- Git.CloneProjects: returns nothing. The source's `clone_projects` always returns `Ok(())`.
- The progress aggregator (todo/cloned counters and the completion rule). No source for it is part of this model. Only the balance of the event trace it would consume is proved.
- Paths.Join: Unix paths only. Windows prefixes and `\` separators are not modelled.
