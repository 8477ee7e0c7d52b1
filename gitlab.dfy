/** Discovery in src/gitlab.rs: the listing URL of one page and `fetch_projects`,
    which walks the whole project listing and publishes every project on the
    project channel, each preceded by a `ToClone` announcement on the action
    channel.

    The HTTP GET and the JSON decoding are an oracle `HttpGet` from URL to
    either a decoded page or an error. */
module GitLab {
  import opened Basics
  import opened Projects
  import opened Keyset
  import opened Channels

  /** Path and query of the listing request, up to the cursor value. */
  const LISTING_QUERY: string :=
    "/api/v4/projects?statistics=false&top_level=&with_custom_attributes=false&all_available=true&top_level&order_by=id&sort=asc&pagination=keyset&per_page=100&id_after="

  /** A GET of a URL followed by decoding its body as a list of projects. */
  type HttpGet = string -> Result<Page>

  /** The URL of the page after `cursor`; an absent cursor is sent as 0. */
  function ProjectsPageUrl(gitlabUrl: string, cursor: Cursor): (url: string)
    ensures |url| > |gitlabUrl + LISTING_QUERY|
    ensures url[..|gitlabUrl + LISTING_QUERY|] == gitlabUrl + LISTING_QUERY
    ensures AllDigits(url[|gitlabUrl + LISTING_QUERY|..])
  {
    gitlabUrl + LISTING_QUERY + Decimal(IdAfter(cursor))
  }

  /** Two page URLs of the same instance coincide exactly when their cursors
      send the same `id_after` value. */
  lemma PageUrlDeterminesIdAfter(gitlabUrl: string, c1: Cursor, c2: Cursor)
    ensures ProjectsPageUrl(gitlabUrl, c1) == ProjectsPageUrl(gitlabUrl, c2) <==> IdAfter(c1) == IdAfter(c2)
  {
    var prefix := gitlabUrl + LISTING_QUERY;
    if ProjectsPageUrl(gitlabUrl, c1) == ProjectsPageUrl(gitlabUrl, c2) {
      var d1, d2 := Decimal(IdAfter(c1)), Decimal(IdAfter(c2));
      assert d1 == (prefix + d1)[|prefix|..] == (prefix + d2)[|prefix|..] == d2;
      DecimalInjective(IdAfter(c1), IdAfter(c2));
    }
  }

  /** `fetch_projects_paginated`: the page source the discovery loop reads. */
  function ProjectPages(get: HttpGet, gitlabUrl: string): PageSource {
    c => get(ProjectsPageUrl(gitlabUrl, c))
  }

  /** The announcements sent for `n` discovered projects. */
  function Announcements(n: nat): (r: seq<ProjectAction>)
    ensures |r| == n && forall i :: 0 <= i < n ==> r[i] == ToClone
  {
    if n == 0 then [] else Announcements(n - 1) + [ToClone]
  }

  /** The walk `fetch_projects` performs with at most `fuel` page requests. */
  function Discovery(get: HttpGet, gitlabUrl: string, fuel: nat): Walk {
    Paginate(ProjectPages(get, gitlabUrl), None, fuel)
  }

  /** The first request of discovery carries no cursor and asks for the
      projects after id 0. */
  lemma FirstRequestStartsAtZero(get: HttpGet, gitlabUrl: string, fuel: nat)
    requires fuel > 0
    ensures var w := Discovery(get, gitlabUrl, fuel);
      |w.requests| > 0 && w.requests[0] == None &&
      ProjectsPageUrl(gitlabUrl, w.requests[0]) == gitlabUrl + LISTING_QUERY + "0"
  {
    WalkShape(ProjectPages(get, gitlabUrl), None, fuel);
  }

  /** A first page request that fails aborts discovery with that error
      before any project or announcement is sent. */
  lemma FirstPageFailureAborts(get: HttpGet, gitlabUrl: string, fuel: nat)
    requires fuel > 0 && get(gitlabUrl + LISTING_QUERY + "0").Err?
    ensures var w := Discovery(get, gitlabUrl, fuel);
      w.stop == Aborted(get(gitlabUrl + LISTING_QUERY + "0").error) && Flatten(w.pages) == []
  {
    assert Decimal(IdAfter(None)) == "0";
    assert ProjectsPageUrl(gitlabUrl, None) == gitlabUrl + LISTING_QUERY + "0";
    assert ProjectPages(get, gitlabUrl)(None) == get(gitlabUrl + LISTING_QUERY + "0");
    EmittedStep(ProjectPages(get, gitlabUrl), None, fuel);
  }

  /** Every request after the first goes to a URL different from that of the
      request before it, except in one case: when the first page ends with a
      project whose id is 0, the second request sends `id_after=0` again. */
  lemma ConsecutiveUrlsDiffer(get: HttpGet, gitlabUrl: string, fuel: nat)
    ensures var w := Discovery(get, gitlabUrl, fuel);
      forall k :: 1 <= k < |w.requests| ==>
        (ProjectsPageUrl(gitlabUrl, w.requests[k]) == ProjectsPageUrl(gitlabUrl, w.requests[k - 1])
         <==> k == 1 && w.requests[k] == Some(0))
  {
    var fetch := ProjectPages(get, gitlabUrl);
    var w := Discovery(get, gitlabUrl, fuel);
    ConsecutiveCursorsDiffer(fetch, None, fuel);
    WalkShape(fetch, None, fuel);
    forall k | 1 <= k < |w.requests|
      ensures ProjectsPageUrl(gitlabUrl, w.requests[k]) == ProjectsPageUrl(gitlabUrl, w.requests[k - 1])
              <==> k == 1 && w.requests[k] == Some(0)
    {
      PageUrlDeterminesIdAfter(gitlabUrl, w.requests[k], w.requests[k - 1]);
      if k > 1 {
        ConsecutiveCursorsDiffer(fetch, None, fuel);
        assert w.requests[k - 1].Some?;
      }
    }
  }

  /** One announcement per discovered project: the number of `ToClone` events
      discovery sends is the sum of the sizes of the pages it received. */
  lemma {:induction false} AnnouncementsCountPages(pages: seq<Page>)
    ensures CountToClone(Announcements(|Flatten(pages)|)) == SumOfLengths(pages)
  {
    FlattenLength(pages);
    AnnouncementsAreToClone(|Flatten(pages)|);
  }

  lemma {:induction false} AnnouncementsAreToClone(n: nat)
    ensures CountToClone(Announcements(n)) == n
  {
    if n > 0 {
      assert Announcements(n)[..n - 1] == Announcements(n - 1);
      AnnouncementsAreToClone(n - 1);
    }
  }

  lemma {:induction false} AnnouncementsConcat(m: nat, n: nat)
    ensures Announcements(m) + Announcements(n) == Announcements(m + n)
  {
    if n > 0 {
      AnnouncementsConcat(m, n - 1);
      ConcatAssociative(Announcements(m), Announcements(n - 1), [ToClone]);
    }
  }

  /** After one more page is published, both channels hold what they held
      before discovery plus everything published so far. */
  lemma PublishedGrows(sent0: seq<Project>, published: seq<Project>, projects: Page, announced0: seq<ProjectAction>)
    ensures sent0 + published + projects == sent0 + (published + projects)
    ensures announced0 + Announcements(|published|) + Announcements(|projects|)
            == announced0 + Announcements(|published + projects|)
  {
    ConcatAssociative(sent0, published, projects);
    AnnouncementsConcat(|published|, |projects|);
    ConcatAssociative(announced0, Announcements(|published|), Announcements(|projects|));
  }

  /** The `for project in projects` body of `fetch_projects`: for each project
      of the page, in order, a `ToClone` on the action channel and then the
      project on the project channel. */
  method PublishPage(projects: Page, txProjects: Channel<Project>, txActions: Channel<ProjectAction>)
    requires txProjects.Valid() && txActions.Valid()
    modifies txProjects, txActions
    ensures txProjects.Valid() && txActions.Valid()
    ensures txProjects.received == old(txProjects.received) && txActions.received == old(txActions.received)
    ensures txProjects.sent == old(txProjects.sent) + projects
    ensures txActions.sent == old(txActions.sent) + Announcements(|projects|)
  {
    var i := 0;
    while i < |projects|
      invariant 0 <= i <= |projects|
      invariant txProjects.Valid() && txActions.Valid()
      invariant txProjects.received == old(txProjects.received) && txActions.received == old(txActions.received)
      invariant txProjects.sent == old(txProjects.sent) + projects[..i]
      invariant txActions.sent == old(txActions.sent) + Announcements(i)
    {
      txActions.Send(ToClone);
      txProjects.Send(projects[i]);
      assert projects[..i] + [projects[i]] == projects[..i + 1];
      i := i + 1;
    }
    assert projects[..i] == projects;
  }

  /** `fetch_projects`. The walk it performs is `Discovery(get, gitlabUrl,
      fuel)`: its result is `Exhausted` for `Ok(())`, `Aborted(e)` for the
      propagated fetch error, or `OutOfFuel` if the fuel ran out first. The
      project channel receives every project of every page received, in page
      order, and the action channel one `ToClone` per project, so the k-th
      announcement belongs to the k-th project; what was published before an
      error stays published. Nothing is received from either channel. */
  method FetchProjects(get: HttpGet, gitlabUrl: string,
                       txProjects: Channel<Project>, txActions: Channel<ProjectAction>,
                       fuel: nat)
    returns (stop: Stop)
    requires txProjects.Valid() && txActions.Valid()
    modifies txProjects, txActions
    ensures txProjects.Valid() && txActions.Valid()
    ensures txProjects.received == old(txProjects.received) && txActions.received == old(txActions.received)
    ensures var w := Discovery(get, gitlabUrl, fuel);
      && stop == w.stop
      && txProjects.sent == old(txProjects.sent) + Flatten(w.pages)
      && txActions.sent == old(txActions.sent) + Announcements(|Flatten(w.pages)|)
  {
    ghost var sent0, announced0 := txProjects.sent, txActions.sent;
    var fetch := ProjectPages(get, gitlabUrl);
    ghost var whole := Discovery(get, gitlabUrl, fuel);
    ghost var published: seq<Project> := [];
    var projectIdAfter: Cursor := None;
    var left := fuel;
    ResumesStart(fetch, projectIdAfter, left);
    while true
      invariant txProjects.Valid() && txActions.Valid()
      invariant txProjects.received == old(txProjects.received) && txActions.received == old(txActions.received)
      invariant Resumes(whole, published, fetch, projectIdAfter, left)
      invariant txProjects.sent == sent0 + published
      invariant txActions.sent == announced0 + Announcements(|published|)
      decreases left
    {
      if left == 0 {
        ResumesEnd(whole, published, fetch, projectIdAfter, left);
        stop := OutOfFuel;
        break;
      }
      var response := fetch(projectIdAfter);
      if response.Err? {
        ResumesEnd(whole, published, fetch, projectIdAfter, left);
        stop := Aborted(response.error);
        break;
      }
      var projects := response.value;
      var newProjectIdAfter := LastId(projects);
      PublishPage(projects, txProjects, txActions);
      PublishedGrows(sent0, published, projects, announced0);
      if newProjectIdAfter == projectIdAfter || newProjectIdAfter.None? {
        ResumesEnd(whole, published, fetch, projectIdAfter, left);
        stop := Exhausted;
        break;
      }
      ResumesStep(whole, published, fetch, projectIdAfter, left, projects, newProjectIdAfter);
      published := published + projects;
      projectIdAfter := newProjectIdAfter;
      left := left - 1;
    }
  }
}
