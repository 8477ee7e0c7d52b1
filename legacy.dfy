/** The stand-alone program of src/main.rs: the per-group discovery loop
    `fetch_all_projects_for_group`, which shares the keyset rule of
    `fetch_projects` but ends silently on a fetch error, and the sequential
    `clone_projects`, which always clones over HTTPS into a directory named
    after the current time and reports each outcome before moving on. */
module Legacy {
  import opened Basics
  import opened Projects
  import opened Keyset
  import opened Channels
  import opened Paths
  import opened Git

  /** A top-level group of the instance. */
  datatype Group = Group(id: U64, name: string)

  const GROUPS_ENDPOINT: string := "https://gitlab.ppro.com/api/v4/groups/"

  /** Path and query of a group's listing request after the group id, up to
      the cursor value. */
  const GROUP_LISTING_QUERY: string := "/projects" + GROUP_LISTING_PARAMETERS

  const GROUP_LISTING_PARAMETERS: string :=
    "?statistics=false&top_level=&with_custom_attributes=false&all_available=true&top_level&order_by=id&sort=asc&pagination=keyset&per_page=100&id_after="

  /** `fetch_group_projects`: the URL of the page of group `groupId` after
      `cursor`; an absent cursor is sent as 0. */
  function GroupPageUrl(groupId: U64, cursor: Cursor): (url: string)
    ensures var n := |GROUPS_ENDPOINT|;
      |url| > n && url[..n] == GROUPS_ENDPOINT && IsDigit(url[n])
    ensures var prefix := GROUPS_ENDPOINT + Decimal(groupId) + GROUP_LISTING_QUERY;
      |url| > |prefix| && url[..|prefix|] == prefix && AllDigits(url[|prefix|..])
  {
    GROUPS_ENDPOINT + Decimal(groupId) + GROUP_LISTING_QUERY + Decimal(IdAfter(cursor))
  }

  /** Two page URLs coincide exactly when they name the same group and send
      the same `id_after` value. */
  lemma GroupPageUrlInjective(g1: U64, c1: Cursor, g2: U64, c2: Cursor)
    ensures GroupPageUrl(g1, c1) == GroupPageUrl(g2, c2) <==> g1 == g2 && IdAfter(c1) == IdAfter(c2)
  {
    if GroupPageUrl(g1, c1) == GroupPageUrl(g2, c2) {
      var q := GROUP_LISTING_QUERY;
      var x1, x2 := Decimal(IdAfter(c1)), Decimal(IdAfter(c2));
      GroupPageUrlShape(g1, c1);
      GroupPageUrlShape(g2, c2);
      PrefixCancel(GROUPS_ENDPOINT, Decimal(g1) + (q + x1), Decimal(g2) + (q + x2));
      assert q[0] == '/';
      DecimalThenTextInjective(g1, q + x1, g2, q + x2);
      PrefixCancel(q, x1, x2);
      DecimalInjective(IdAfter(c1), IdAfter(c2));
    }
  }

  lemma GroupPageUrlShape(g: U64, c: Cursor)
    ensures GroupPageUrl(g, c) == GROUPS_ENDPOINT + (Decimal(g) + (GROUP_LISTING_QUERY + Decimal(IdAfter(c))))
  {
    var e, d, q, x := GROUPS_ENDPOINT, Decimal(g), GROUP_LISTING_QUERY, Decimal(IdAfter(c));
    ConcatAssociative(e + d, q, x);
    ConcatAssociative(e, d, q + x);
  }

  /** The page source the loop of group `groupId` reads. */
  function GroupPages(get: string -> Result<Page>, groupId: U64): PageSource {
    c => get(GroupPageUrl(groupId, c))
  }

  /** The walk `fetch_all_projects_for_group` performs with at most `fuel`
      page requests. */
  function GroupDiscovery(get: string -> Result<Page>, group: Group, fuel: nat): Walk {
    Paginate(GroupPages(get, group.id), None, fuel)
  }

  /** The first request of a group carries no cursor: it names the group and
      asks for the projects after id 0. */
  lemma FirstGroupRequestStartsAtZero(get: string -> Result<Page>, group: Group, fuel: nat)
    requires fuel > 0
    ensures var w := GroupDiscovery(get, group, fuel);
      |w.requests| > 0 && w.requests[0] == None &&
      GroupPageUrl(group.id, w.requests[0]) == GROUPS_ENDPOINT + Decimal(group.id) + GROUP_LISTING_QUERY + "0"
  {
    WalkShape(GroupPages(get, group.id), None, fuel);
  }

  /** Every request of a group's walk goes to that group's listing. */
  lemma {:induction false} GroupWalkStaysInGroup(get: string -> Result<Page>, group: Group, fuel: nat, other: U64)
    requires other != group.id
    ensures var w := GroupDiscovery(get, group, fuel);
      forall k, c :: 0 <= k < |w.requests| ==> GroupPageUrl(group.id, w.requests[k]) != GroupPageUrl(other, c)
  {
    var w := GroupDiscovery(get, group, fuel);
    forall k, c | 0 <= k < |w.requests|
      ensures GroupPageUrl(group.id, w.requests[k]) != GroupPageUrl(other, c)
    {
      GroupPageUrlInjective(group.id, w.requests[k], other, c);
    }
  }

  /** The `for project in projects` body of the group loop. */
  method SendPage(projects: Page, tx: Channel<Project>)
    requires tx.Valid()
    modifies tx
    ensures tx.Valid() && tx.received == old(tx.received)
    ensures tx.sent == old(tx.sent) + projects
  {
    var i := 0;
    while i < |projects|
      invariant 0 <= i <= |projects|
      invariant tx.Valid() && tx.received == old(tx.received)
      invariant tx.sent == old(tx.sent) + projects[..i]
    {
      tx.Send(projects[i]);
      PrefixSnoc(projects, i);
      ConcatAssociative(old(tx.sent), projects[..i], [projects[i]]);
      i := i + 1;
    }
    assert projects[..i] == projects;
  }

  /** `fetch_all_projects_for_group`. The walk it performs is
      `GroupDiscovery(get, group, fuel)`; the channel receives every project
      of every page received, in page order. A fetch error ends the loop like
      the end of the listing does: nothing is returned, and what was sent
      before it stays sent. */
  method FetchAllProjectsForGroup(get: string -> Result<Page>, tx: Channel<Project>, group: Group, fuel: nat)
    requires tx.Valid()
    modifies tx
    ensures tx.Valid() && tx.received == old(tx.received)
    ensures tx.sent == old(tx.sent) + Flatten(GroupDiscovery(get, group, fuel).pages)
  {
    ghost var sent0 := tx.sent;
    var fetch := GroupPages(get, group.id);
    ghost var whole := GroupDiscovery(get, group, fuel);
    ghost var published: seq<Project> := [];
    var projectIdAfter: Cursor := None;
    var left := fuel;
    ResumesStart(fetch, projectIdAfter, left);
    while true
      invariant tx.Valid() && tx.received == old(tx.received)
      invariant Resumes(whole, published, fetch, projectIdAfter, left)
      invariant tx.sent == sent0 + published
      decreases left
    {
      ResumesEnd(whole, published, fetch, projectIdAfter, left);
      if left == 0 {
        break;
      }
      var res := fetch(projectIdAfter);
      if res.Err? {
        break;
      }
      var projects := res.value;
      var newProjectIdAfter := LastId(projects);
      SendPage(projects, tx);
      ConcatAssociative(sent0, published, projects);
      if newProjectIdAfter == projectIdAfter || newProjectIdAfter.None? {
        break;
      }
      ResumesStep(whole, published, fetch, projectIdAfter, left, projects, newProjectIdAfter);
      published := published + projects;
      projectIdAfter := newProjectIdAfter;
      left := left - 1;
    }
  }

  /** A group whose first page cannot be fetched sends nothing, and the
      program goes on. */
  lemma FirstPageErrorSendsNothing(get: string -> Result<Page>, group: Group, fuel: nat)
    requires fuel > 0 && get(GroupPageUrl(group.id, None)).Err?
    ensures Flatten(GroupDiscovery(get, group, fuel).pages) == []
  {
    EmittedStep(GroupPages(get, group.id), None, fuel);
  }

  /** `PathBuf::new().join("/tmp").join(now.to_string())`. */
  function ScratchRoot(now: U64): string {
    Join(Join("", "/tmp"), Decimal(now))
  }

  /** The clone root is the directory of `/tmp` named by the decimal seconds
      since the epoch, and different seconds name different roots. */
  lemma ScratchRootIsTmpSeconds(now: U64, later: U64)
    ensures ScratchRoot(now) == "/tmp/" + Decimal(now)
    ensures ScratchRoot(now) == ScratchRoot(later) ==> now == later
  {
    assert !IsAbsolute(Decimal(now)) && !IsAbsolute(Decimal(later));
    if ScratchRoot(now) == ScratchRoot(later) {
      JoinRelativeInjective("/tmp", Decimal(now), Decimal(later));
      DecimalInjective(now, later);
    }
  }

  /** The clone of one project in the sequential loop: always the HTTP URL,
      the project's path under the root, and the SSH key callback registered
      whatever the URL. */
  function LegacyRequest(root: string, project: Project, home: string): (req: CloneRequest)
    ensures req.url == project.httpUrlToRepo
    ensures req.destination == Join(root, project.pathWithNamespace)
    ensures req.sshKey == Some(home + "/.ssh/id_rsa_gitlab")
  {
    CloneRequest(project.httpUrlToRepo, Join(root, project.pathWithNamespace), Some(SshKeyPath(home)))
  }

  /** What the loop prints after a clone attempt. */
  datatype Report = ReportedCloned | ReportedFailed(err: string)

  /** Only a successful clone is reported as cloned; every error, an existing
      destination included, is reported as a failure with its text. */
  function ReportOf(result: CloneResult): (r: Report)
    ensures r.ReportedCloned? <==> result.CloneOk?
    ensures r.ReportedFailed? ==> r.err == result.message
  {
    match result
    case CloneOk => ReportedCloned
    case CloneErr(_, message) => ReportedFailed(message)
  }

  /** One iteration of the loop: the project, the clone attempted for it and
      what was reported. */
  datatype Attempt = Attempt(project: Project, request: CloneRequest, report: Report)

  function AttemptOf(root: string, project: Project, home: string, mirror: Mirror): (a: Attempt)
    ensures a.project == project
    ensures a.request.url == project.httpUrlToRepo && a.request.destination == Join(root, project.pathWithNamespace)
    ensures a.report.ReportedCloned? <==> mirror(a.request).result.CloneOk?
  {
    var request := LegacyRequest(root, project, home);
    Attempt(project, request, ReportOf(mirror(request).result))
  }

  /** The attempts for `projects`, in order. */
  function AttemptsFor(root: string, projects: seq<Project>, home: string, mirror: Mirror): (r: seq<Attempt>)
    ensures |r| == |projects|
  {
    if projects == [] then []
    else AttemptsFor(root, projects[..|projects| - 1], home, mirror)
         + [AttemptOf(root, projects[|projects| - 1], home, mirror)]
  }

  lemma AttemptsForSnoc(root: string, projects: seq<Project>, project: Project, home: string, mirror: Mirror)
    ensures AttemptsFor(root, projects + [project], home, mirror)
            == AttemptsFor(root, projects, home, mirror) + [AttemptOf(root, project, home, mirror)]
  {
    assert (projects + [project])[..|projects|] == projects;
  }

  /** Every received project is attempted exactly once and in order, over
      HTTPS into its path under the root, whatever the earlier attempts
      reported. */
  lemma {:induction false} EveryProjectAttemptedOnce(root: string, projects: seq<Project>, home: string, mirror: Mirror)
    ensures var r := AttemptsFor(root, projects, home, mirror);
      |r| == |projects| &&
      forall k :: 0 <= k < |projects| ==>
        r[k] == AttemptOf(root, projects[k], home, mirror) &&
        r[k].project == projects[k] && r[k].request.url == projects[k].httpUrlToRepo &&
        r[k].request.destination == Join(root, projects[k].pathWithNamespace)
  {
    if projects != [] {
      var init := projects[..|projects| - 1];
      EveryProjectAttemptedOnce(root, init, home, mirror);
      var r := AttemptsFor(root, projects, home, mirror);
      forall k | 0 <= k < |projects|
        ensures r[k] == AttemptOf(root, projects[k], home, mirror)
      {
        if k < |init| {
          assert r[k] == AttemptsFor(root, init, home, mirror)[k];
        }
      }
    }
  }

  /** The two programs disagree on a destination that already holds a
      repository: the worker of src/git.rs resolves it as cloned, the
      sequential loop reports a failure. */
  lemma ExistingDestinationIsReportedAsFailure(project: Project, m: CloneMethod, root: string, home: string,
                                               mirror: Mirror, message: string)
    requires mirror(LegacyRequest(root, project, home)).result == CloneErr(Exists, message)
    requires mirror(PlanClone(root, project, m, home)).result == CloneErr(Exists, message)
    ensures AttemptOf(root, project, home, mirror).report == ReportedFailed(message)
    ensures WorkerAction(project, m, root, home, mirror).Cloned?
  {
  }

  /** The sequential `clone_projects`: receive projects until the channel is
      closed and drained, attempt one clone per project and report its
      outcome; the attempts are returned in the order they were made. */
  method CloneProjectsSequentially(rx: Channel<Project>, now: U64, home: string, mirror: Mirror)
    returns (attempts: seq<Attempt>)
    requires rx.Valid()
    modifies rx
    ensures rx.Valid() && rx.sent == old(rx.sent) && rx.received == |rx.sent|
    ensures attempts == AttemptsFor(ScratchRoot(now), old(rx.Pending()), home, mirror)
  {
    var root := ScratchRoot(now);
    ghost var queue := rx.Pending();
    ghost var handled: seq<Project> := [];
    attempts := [];
    var next := rx.Recv();
    while next.Some?
      invariant rx.Valid() && rx.sent == old(rx.sent)
      invariant rx.received == old(rx.received) + |handled| + if next.Some? then 1 else 0
      invariant |handled| <= |queue| && handled == queue[..|handled|]
      invariant next.Some? ==> |handled| < |queue| && next.value == queue[|handled|]
      invariant next.None? ==> rx.received == |rx.sent|
      invariant attempts == AttemptsFor(root, handled, home, mirror)
      decreases |rx.sent| - rx.received, next.Some?
    {
      var project := next.value;
      var attempt := AttemptOf(root, project, home, mirror);
      AttemptsForSnoc(root, handled, project, home, mirror);
      attempts := attempts + [attempt];
      PrefixSnoc(queue, |handled|);
      handled := handled + [project];
      next := rx.Recv();
    }
    assert handled == queue;
  }
}
