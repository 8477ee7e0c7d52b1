/** The two records that travel through the pipeline: the `Project` listing
    entry the GitLab API returns, and the `ProjectAction` progress event. */
module Projects {
  import opened Basics

  /** One repository of the listing; `id` is the keyset pagination cursor. */
  datatype Project = Project(
    id: U64,
    sshUrlToRepo: string,
    httpUrlToRepo: string,
    pathWithNamespace: string)

  /** A progress event: one more unit of work announced, or one project resolved. */
  datatype ProjectAction =
    | ToClone
    | Cloned(projectPath: string, receivedBytes: nat, receivedObjects: nat)
    | Failed(projectPath: string, err: string)

  predicate IsTerminal(a: ProjectAction) {
    a.Cloned? || a.Failed?
  }

  /** Number of `ToClone` announcements in a trace of events. */
  function CountToClone(trace: seq<ProjectAction>): nat {
    if trace == [] then 0
    else CountToClone(trace[..|trace| - 1]) + (if trace[|trace| - 1].ToClone? then 1 else 0)
  }

  /** Number of terminal events (`Cloned` or `Failed`) in a trace. */
  function CountTerminal(trace: seq<ProjectAction>): nat {
    if trace == [] then 0
    else CountTerminal(trace[..|trace| - 1]) + (if IsTerminal(trace[|trace| - 1]) then 1 else 0)
  }

  lemma {:induction false} CountsOfConcat(a: seq<ProjectAction>, b: seq<ProjectAction>)
    ensures CountToClone(a + b) == CountToClone(a) + CountToClone(b)
    ensures CountTerminal(a + b) == CountTerminal(a) + CountTerminal(b)
  {
    if b != [] {
      assert (a + b)[..|a + b| - 1] == a + b[..|b| - 1];
      CountsOfConcat(a, b[..|b| - 1]);
    } else {
      assert a + b == a;
    }
  }

  /** Every event of a trace is either an announcement or a terminal event. */
  lemma {:induction false} CountsCoverTrace(trace: seq<ProjectAction>)
    ensures CountToClone(trace) + CountTerminal(trace) == |trace|
  {
    if trace != [] {
      CountsCoverTrace(trace[..|trace| - 1]);
    }
  }

  /** The announcement count of a trace is the multiplicity of `ToClone` in
      it, so it does not depend on the order in which events arrive. */
  lemma {:induction false} CountToCloneIsMultiplicity(trace: seq<ProjectAction>)
    ensures CountToClone(trace) == multiset(trace)[ToClone]
  {
    if trace != [] {
      var init := trace[..|trace| - 1];
      assert trace == init + [trace[|trace| - 1]];
      CountToCloneIsMultiplicity(init);
    }
  }

  /** Any two orderings of the same events agree on both counts. */
  lemma CountsIgnoreOrder(a: seq<ProjectAction>, b: seq<ProjectAction>)
    requires multiset(a) == multiset(b)
    ensures CountToClone(a) == CountToClone(b) && CountTerminal(a) == CountTerminal(b)
  {
    CountToCloneIsMultiplicity(a);
    CountToCloneIsMultiplicity(b);
    CountsCoverTrace(a);
    CountsCoverTrace(b);
    assert |a| == |multiset(a)| == |multiset(b)| == |b|;
  }
}
