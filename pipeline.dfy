/** The two halves of src/gitlab.rs and src/git.rs put together: discovery
    announces one unit of work per project it publishes, and the dispatcher
    resolves each published project with one terminal event, so however the
    two producers' events interleave on the action channel, the announcements
    and the terminal events balance. */
module Pipeline {
  import opened Projects
  import opened Keyset
  import opened GitLab
  import opened Git

  /** Every announced project is resolved exactly once: for any arrival order
      of the discovery's announcements and the workers' actions, the action
      trace holds as many terminal events as `ToClone` announcements, both
      equal to the number of projects discovered. */
  lemma AnnouncementsBalanceResolutions(get: HttpGet, gitlabUrl: string, fuel: nat,
                                        m: CloneMethod, root: string, home: string, mirror: Mirror,
                                        trace: seq<ProjectAction>)
    requires var projects := Flatten(Discovery(get, gitlabUrl, fuel).pages);
      multiset(trace) == multiset(Announcements(|projects|) + DispatchAll(projects, m, root, home, mirror))
    ensures var n := SumOfLengths(Discovery(get, gitlabUrl, fuel).pages);
      CountToClone(trace) == n && CountTerminal(trace) == n
  {
    var pages := Discovery(get, gitlabUrl, fuel).pages;
    var projects := Flatten(pages);
    var announced := Announcements(|projects|);
    var resolved := DispatchAll(projects, m, root, home, mirror);
    CountsIgnoreOrder(trace, announced + resolved);
    CountsOfConcat(announced, resolved);
    AnnouncementsCountPages(pages);
    FlattenLength(pages);
    EachProjectResolvedOnce(projects, m, root, home, mirror);
    AnnouncementsAreToClone(|projects|);
    assert CountTerminal(announced) == 0 by {
      CountsCoverTrace(announced);
    }
  }
}
