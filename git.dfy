/** Cloning in src/git.rs: choosing the transport from its keyword, planning a
    clone (URL, destination, credentials), the worker that turns the outcome of
    one clone into exactly one terminal `ProjectAction`, and the dispatcher
    that runs a worker for every project it receives.

    The clone itself (git2) is an oracle `Mirror` from the planned request to
    its outcome and the sequence of transfer-progress reports it delivers to
    the callback. */
module Git {
  import opened Basics
  import opened Projects
  import opened Paths
  import opened Channels

  datatype CloneMethod = Ssh | Https

  /** The command-line keyword of a clone method. */
  function Keyword(m: CloneMethod): string {
    match m
    case Https => "https"
    case Ssh => "ssh"
  }

  /** `CloneMethod::from_str`: exactly the two lower-case keywords parse; any
      other string, another casing included, is rejected with "no match". */
  function ParseCloneMethod(s: string): (r: Result<CloneMethod>)
    ensures r.Ok? <==> s == "https" || s == "ssh"
    ensures r.Ok? ==> Keyword(r.value) == s
    ensures r.Err? ==> r.error == "no match"
  {
    if s == "https" then Ok(Https)
    else if s == "ssh" then Ok(Ssh)
    else Err("no match")
  }

  lemma {:induction false} ParseKeywordRoundTrip(m: CloneMethod, s: string)
    ensures ParseCloneMethod(Keyword(m)) == Ok(m)
    ensures ParseCloneMethod(s) == Ok(m) <==> s == Keyword(m)
  {
    match m
    case Https =>
    case Ssh =>
  }

  lemma ParseIsCaseSensitive()
    ensures ParseCloneMethod("HTTPS") == Err("no match")
    ensures ParseCloneMethod("Ssh") == Err("no match")
    ensures ParseCloneMethod("") == Err("no match")
  {
  }

  /** The private key `Cred::ssh_key` is given, under the home directory. */
  function SshKeyPath(home: string): string {
    home + "/.ssh/id_rsa_gitlab"
  }

  /** What a clone attempt is asked to do: fetch `url` into `destination`,
      answering credential requests with the key `sshKey` when there is one. */
  datatype CloneRequest = CloneRequest(url: string, destination: string, sshKey: Option<string>)

  function RepoUrl(project: Project, m: CloneMethod): string {
    match m
    case Ssh => project.sshUrlToRepo
    case Https => project.httpUrlToRepo
  }

  function Credentials(m: CloneMethod, home: string): Option<string> {
    if m == Ssh then Some(SshKeyPath(home)) else None
  }

  /** The clone a worker attempts for `project`: the SSH URL for `Ssh` and the
      HTTP URL for `Https`, the SSH key attached exactly for `Ssh`, and the
      namespaced path under the root as destination. */
  function PlanClone(root: string, project: Project, m: CloneMethod, home: string): (req: CloneRequest)
    ensures req.url == if m == Ssh then project.sshUrlToRepo else project.httpUrlToRepo
    ensures req.sshKey.Some? <==> m == Ssh
    ensures req.sshKey.Some? ==> req.sshKey.value == home + "/.ssh/id_rsa_gitlab"
    ensures req.destination == Join(root, project.pathWithNamespace)
  {
    CloneRequest(RepoUrl(project, m), Join(root, project.pathWithNamespace), Credentials(m, home))
  }

  /** Projects with different relative namespaced paths are cloned into
      different directories. */
  lemma DistinctPathsDistinctDestinations(root: string, p: Project, q: Project, m: CloneMethod, home: string)
    requires !IsAbsolute(p.pathWithNamespace) && !IsAbsolute(q.pathWithNamespace)
    requires p.pathWithNamespace != q.pathWithNamespace
    ensures PlanClone(root, p, m, home).destination != PlanClone(root, q, m, home).destination
  {
    if Join(root, p.pathWithNamespace) == Join(root, q.pathWithNamespace) {
      JoinRelativeInjective(root, p.pathWithNamespace, q.pathWithNamespace);
    }
  }

  /** One report of the transfer-progress callback: `stats.received_bytes()`
      and `stats.received_objects()`. */
  datatype Progress = Progress(receivedBytes: nat, receivedObjects: nat)

  /** The counters a worker reports after a transfer: those of the last
      progress report, or zero when there was none. */
  function LastSample(reports: seq<Progress>): Progress {
    if reports == [] then Progress(0, 0) else reports[|reports| - 1]
  }

  /** The git2 error code the worker distinguishes. */
  datatype ErrorCode = Exists | OtherCode

  datatype CloneResult = CloneOk | CloneErr(code: ErrorCode, message: string)

  /** What a clone attempt produced: its outcome, and the progress reports the
      callback received during it, in order. */
  datatype Transfer = Transfer(result: CloneResult, progress: seq<Progress>)

  type Mirror = CloneRequest -> Transfer

  /** The worker's two `RefCell<usize>` counters, which the progress callback
      overwrites. */
  class TransferCounters {
    var receivedBytes: nat
    var receivedObjects: nat

    constructor ()
      ensures receivedBytes == 0 && receivedObjects == 0
    {
      receivedBytes, receivedObjects := 0, 0;
    }

    /** The `transfer_progress` callback: replace both counters with the
        report's values and let the transfer go on. */
    method OnTransferProgress(stats: Progress) returns (proceed: bool)
      modifies this
      ensures receivedBytes == stats.receivedBytes && receivedObjects == stats.receivedObjects
      ensures proceed
    {
      receivedBytes := stats.receivedBytes;
      receivedObjects := stats.receivedObjects;
      proceed := true;
    }
  }

  /** The final `match` of the worker. A successful clone and a destination
      that already holds a repository both resolve as `Cloned` with the
      counters; every other error resolves as `Failed` with its message. */
  function Classify(project: Project, result: CloneResult, counters: Progress): (a: ProjectAction)
    ensures IsTerminal(a) && a.projectPath == project.pathWithNamespace
    ensures a.Cloned? <==> result.CloneOk? || result.code == Exists
    ensures a.Cloned? ==> a.receivedBytes == counters.receivedBytes && a.receivedObjects == counters.receivedObjects
    ensures a.Failed? ==> a.err == result.message
  {
    match result
    case CloneOk => Cloned(project.pathWithNamespace, counters.receivedBytes, counters.receivedObjects)
    case CloneErr(Exists, _) => Cloned(project.pathWithNamespace, counters.receivedBytes, counters.receivedObjects)
    case CloneErr(OtherCode, message) => Failed(project.pathWithNamespace, message)
  }

  /** The one action the worker for `project` sends. */
  function WorkerAction(project: Project, m: CloneMethod, root: string, home: string, mirror: Mirror)
    : (action: ProjectAction)
    ensures IsTerminal(action) && action.projectPath == project.pathWithNamespace
  {
    var transfer := mirror(PlanClone(root, project, m, home));
    Classify(project, transfer.result, LastSample(transfer.progress))
  }

  /** The body of the task spawned per project: plan the clone, let the mirror
      deliver its progress reports to the callback one by one, and classify
      the outcome with the counters as the callback left them. */
  method CloneWorker(project: Project, m: CloneMethod, root: string, home: string, mirror: Mirror)
    returns (action: ProjectAction)
    ensures action == WorkerAction(project, m, root, home, mirror)
  {
    var request := PlanClone(root, project, m, home);
    var transfer := mirror(request);
    var counters := new TransferCounters();
    var i := 0;
    while i < |transfer.progress|
      invariant 0 <= i <= |transfer.progress|
      invariant Progress(counters.receivedBytes, counters.receivedObjects) == LastSample(transfer.progress[..i])
    {
      var _ := counters.OnTransferProgress(transfer.progress[i]);
      i := i + 1;
    }
    assert transfer.progress[..i] == transfer.progress;
    action := Classify(project, transfer.result, Progress(counters.receivedBytes, counters.receivedObjects));
  }

  /** A destination that already holds a repository and a mirror that reports
      no progress: the project is `Cloned` with zero bytes and zero objects. */
  lemma ExistingDestinationIsCloned(project: Project, m: CloneMethod, root: string, home: string,
                                    mirror: Mirror, message: string)
    requires mirror(PlanClone(root, project, m, home)) == Transfer(CloneErr(Exists, message), [])
    ensures WorkerAction(project, m, root, home, mirror) == Cloned(project.pathWithNamespace, 0, 0)
  {
  }

  /** The actions the dispatcher's workers send for `projects`, in order. */
  function DispatchAll(projects: seq<Project>, m: CloneMethod, root: string, home: string, mirror: Mirror)
    : (actions: seq<ProjectAction>)
    ensures |actions| == |projects|
  {
    if projects == [] then []
    else
      DispatchAll(projects[..|projects| - 1], m, root, home, mirror)
      + [WorkerAction(projects[|projects| - 1], m, root, home, mirror)]
  }

  /** The k-th action is the action of the worker for the k-th project. */
  lemma {:induction false} DispatchAllElements(projects: seq<Project>, m: CloneMethod, root: string,
                                               home: string, mirror: Mirror)
    ensures var actions := DispatchAll(projects, m, root, home, mirror);
      forall k :: 0 <= k < |projects| ==> actions[k] == WorkerAction(projects[k], m, root, home, mirror)
  {
    if projects != [] {
      var init := projects[..|projects| - 1];
      DispatchAllElements(init, m, root, home, mirror);
      var actions := DispatchAll(projects, m, root, home, mirror);
      forall k | 0 <= k < |projects|
        ensures actions[k] == WorkerAction(projects[k], m, root, home, mirror)
      {
        if k < |init| {
          assert actions[k] == DispatchAll(init, m, root, home, mirror)[k];
        }
      }
    }
  }

  lemma DispatchAllSnoc(projects: seq<Project>, project: Project, m: CloneMethod, root: string,
                        home: string, mirror: Mirror)
    ensures DispatchAll(projects + [project], m, root, home, mirror)
            == DispatchAll(projects, m, root, home, mirror) + [WorkerAction(project, m, root, home, mirror)]
  {
    assert (projects + [project])[..|projects|] == projects;
  }

  /** Every project received is resolved exactly once, by a terminal action
      naming that project's path, and the dispatcher announces nothing. */
  lemma {:induction false} EachProjectResolvedOnce(projects: seq<Project>, m: CloneMethod, root: string,
                                                   home: string, mirror: Mirror)
    ensures var actions := DispatchAll(projects, m, root, home, mirror);
      && (forall k :: 0 <= k < |projects| ==>
            IsTerminal(actions[k]) && actions[k].projectPath == projects[k].pathWithNamespace)
      && CountTerminal(actions) == |projects|
      && CountToClone(actions) == 0
  {
    DispatchAllElements(projects, m, root, home, mirror);
    if projects != [] {
      var init := projects[..|projects| - 1];
      EachProjectResolvedOnce(init, m, root, home, mirror);
      assert DispatchAll(projects, m, root, home, mirror)[..|projects| - 1] == DispatchAll(init, m, root, home, mirror);
    }
  }

  /** One spawned worker: clone `project` and send the resulting action on
      the action channel. */
  method SpawnWorker(project: Project, txActions: Channel<ProjectAction>,
                     root: string, m: CloneMethod, home: string, mirror: Mirror)
    requires txActions.Valid()
    modifies txActions
    ensures txActions.Valid() && txActions.received == old(txActions.received)
    ensures txActions.sent == old(txActions.sent) + [WorkerAction(project, m, root, home, mirror)]
  {
    var action := CloneWorker(project, m, root, home, mirror);
    txActions.Send(action);
  }

  /** `clone_projects`: receive projects until the channel is closed and
      drained, and for each one run its worker, which sends its action. */
  method CloneProjects(rxProjects: Channel<Project>, txActions: Channel<ProjectAction>,
                       root: string, m: CloneMethod, home: string, mirror: Mirror)
    requires rxProjects.Valid() && txActions.Valid()
    modifies rxProjects, txActions
    ensures rxProjects.Valid() && txActions.Valid()
    ensures rxProjects.sent == old(rxProjects.sent) && rxProjects.received == |rxProjects.sent|
    ensures txActions.received == old(txActions.received)
    ensures txActions.sent == old(txActions.sent) + DispatchAll(old(rxProjects.Pending()), m, root, home, mirror)
  {
    ghost var queue := rxProjects.Pending();
    ghost var sent0 := txActions.sent;
    ghost var handled: seq<Project> := [];
    var next := rxProjects.Recv();
    while next.Some?
      invariant rxProjects.Valid() && txActions.Valid()
      invariant rxProjects.sent == old(rxProjects.sent) && txActions.received == old(txActions.received)
      invariant rxProjects.received == old(rxProjects.received) + |handled| + if next.Some? then 1 else 0
      invariant |handled| <= |queue| && handled == queue[..|handled|]
      invariant next.Some? ==> |handled| < |queue| && next.value == queue[|handled|]
      invariant next.None? ==> rxProjects.received == |rxProjects.sent|
      invariant txActions.sent == sent0 + DispatchAll(handled, m, root, home, mirror)
      decreases |rxProjects.sent| - rxProjects.received, next.Some?
    {
      var project := next.value;
      SpawnWorker(project, txActions, root, m, home, mirror);
      assert txActions.sent == sent0 + DispatchAll(handled + [project], m, root, home, mirror) by {
        DispatchAllSnoc(handled, project, m, root, home, mirror);
        ConcatAssociative(sent0, DispatchAll(handled, m, root, home, mirror), [WorkerAction(project, m, root, home, mirror)]);
      }
      PrefixSnoc(queue, |handled|);
      handled := handled + [project];
      next := rxProjects.Recv();
    }
    assert handled == queue;
  }
}
