/** The keyset pagination rule that both discovery loops follow
    (`fetch_projects` in src/gitlab.rs and `fetch_all_projects_for_group` in
    src/main.rs): start without a cursor, take a page, continue from the id of
    the page's last project, and stop on an empty page or when that id equals
    the cursor just used. A page fetch that fails ends the walk.

    The fetch itself is an oracle from cursor to page. For an arbitrary oracle
    the walk need not end (a server may answer cursor 5 with a page ending in 3
    and cursor 3 with one ending in 5), so the walk is bounded by `fuel`, the
    number of page requests allowed; `OutOfFuel` means the source would still be
    paging. `HonestServerTerminates` gives the fuel that suffices for a server
    that honours `id_after`. */
module Keyset {
  import opened Basics
  import opened Projects

  type Cursor = Option<U64>
  type Page = seq<Project>
  type PageSource = Cursor -> Result<Page>

  /** The `id_after` query value of a request: `project_id_after.unwrap_or(0)`. */
  function IdAfter(c: Cursor): (v: U64)
    ensures c.Some? ==> v == c.value
    ensures c.None? ==> v == 0
  {
    match c
    case None => 0
    case Some(v) => v
  }

  /** `projects.iter().map(|p| p.id).last()`. */
  function LastId(page: Page): (last: Cursor)
  {
    if page == [] then None else Some(page[|page| - 1].id)
  }

  /** The loop goes on after `page`, fetched with `cursor`, unless the page is
      empty or its last id repeats the cursor. */
  predicate Continues(cursor: Cursor, page: Page) {
    var next := LastId(page);
    !(next == cursor || next.None?)
  }

  datatype Stop = Exhausted | Aborted(error: string) | OutOfFuel

  /** What a walk does: the cursors it requested, in order, the pages it
      received (and emitted), in order, and why it stopped. */
  datatype Walk = Walk(requests: seq<Cursor>, pages: seq<Page>, stop: Stop)

  /** The walk from `cursor` with at most `fuel` requests. */
  function Paginate(fetch: PageSource, cursor: Cursor, fuel: nat): Walk
    decreases fuel
  {
    if fuel == 0 then Walk([], [], OutOfFuel)
    else
      match fetch(cursor)
      case Err(e) => Walk([cursor], [], Aborted(e))
      case Ok(page) =>
        if !Continues(cursor, page) then Walk([cursor], [page], Exhausted)
        else
          var rest := Paginate(fetch, LastId(page), fuel - 1);
          Walk([cursor] + rest.requests, [page] + rest.pages, rest.stop)
  }

  /** All projects of a sequence of pages, in page order. */
  function Flatten(pages: seq<Page>): seq<Project> {
    if pages == [] then [] else Flatten(pages[..|pages| - 1]) + pages[|pages| - 1]
  }

  function SumOfLengths(pages: seq<Page>): nat {
    if pages == [] then 0 else SumOfLengths(pages[..|pages| - 1]) + |pages[|pages| - 1]|
  }

  lemma {:induction false} FlattenConcat(a: seq<Page>, b: seq<Page>)
    ensures Flatten(a + b) == Flatten(a) + Flatten(b)
  {
    if b == [] {
      assert a + b == a;
    } else {
      var init, last := b[..|b| - 1], b[|b| - 1];
      assert (a + b)[..|a + b| - 1] == a + init && (a + b)[|a + b| - 1] == last;
      FlattenConcat(a, init);
      ConcatAssociative(Flatten(a), Flatten(init), last);
    }
  }

  lemma {:induction false} FlattenLength(pages: seq<Page>)
    ensures |Flatten(pages)| == SumOfLengths(pages)
  {
    if pages != [] {
      FlattenLength(pages[..|pages| - 1]);
    }
  }

  /** One step of the walk as seen through the projects it emits. */
  lemma EmittedStep(fetch: PageSource, cursor: Cursor, fuel: nat)
    ensures var w := Paginate(fetch, cursor, fuel);
      && (fuel == 0 ==> Flatten(w.pages) == [] && w.stop == OutOfFuel)
      && (fuel > 0 && fetch(cursor).Err? ==> Flatten(w.pages) == [] && w.stop == Aborted(fetch(cursor).error))
      && (fuel > 0 && fetch(cursor).Ok? && !Continues(cursor, fetch(cursor).value) ==>
            Flatten(w.pages) == fetch(cursor).value && w.stop == Exhausted)
      && (fuel > 0 && fetch(cursor).Ok? && Continues(cursor, fetch(cursor).value) ==>
            var rest := Paginate(fetch, LastId(fetch(cursor).value), fuel - 1);
            Flatten(w.pages) == fetch(cursor).value + Flatten(rest.pages) && w.stop == rest.stop)
  {
    var w := Paginate(fetch, cursor, fuel);
    if fuel > 0 && fetch(cursor).Ok? {
      var page := fetch(cursor).value;
      if !Continues(cursor, page) {
        assert w.pages == [] + [page];
        assert Flatten(w.pages) == page;
      } else {
        var rest := Paginate(fetch, LastId(page), fuel - 1);
        FlattenConcat([page], rest.pages);
        assert [page] == [] + [page];
        assert Flatten([page]) == page;
      }
    }
  }

  /** A loop that has emitted `emitted` and is about to request `cursor` with
      `fuel` requests left is on its way to completing `whole`. */
  ghost predicate Resumes(whole: Walk, emitted: seq<Project>, fetch: PageSource, cursor: Cursor, fuel: nat) {
    var w := Paginate(fetch, cursor, fuel);
    Flatten(whole.pages) == emitted + Flatten(w.pages) && whole.stop == w.stop
  }

  lemma ResumesStart(fetch: PageSource, cursor: Cursor, fuel: nat)
    ensures Resumes(Paginate(fetch, cursor, fuel), [], fetch, cursor, fuel)
  {
    assert [] + Flatten(Paginate(fetch, cursor, fuel).pages) == Flatten(Paginate(fetch, cursor, fuel).pages);
  }

  /** A continuing page moves the loop on to the page's last id. */
  lemma ResumesStep(whole: Walk, emitted: seq<Project>, fetch: PageSource, cursor: Cursor, fuel: nat,
                    page: Page, next: Cursor)
    requires Resumes(whole, emitted, fetch, cursor, fuel)
    requires fuel > 0 && fetch(cursor) == Ok(page)
    requires next == LastId(page) && !(next == cursor || next.None?)
    ensures Resumes(whole, emitted + page, fetch, next, fuel - 1)
  {
    EmittedStep(fetch, cursor, fuel);
    ConcatAssociative(emitted, page, Flatten(Paginate(fetch, LastId(page), fuel - 1).pages));
  }

  /** The three ways the loop leaves. */
  lemma ResumesEnd(whole: Walk, emitted: seq<Project>, fetch: PageSource, cursor: Cursor, fuel: nat)
    requires Resumes(whole, emitted, fetch, cursor, fuel)
    ensures fuel == 0 ==> Flatten(whole.pages) == emitted && whole.stop == OutOfFuel
    ensures fuel > 0 && fetch(cursor).Err? ==>
      Flatten(whole.pages) == emitted && whole.stop == Aborted(fetch(cursor).error)
    ensures fuel > 0 && fetch(cursor).Ok? && !Continues(cursor, fetch(cursor).value) ==>
      Flatten(whole.pages) == emitted + fetch(cursor).value && whole.stop == Exhausted
  {
    EmittedStep(fetch, cursor, fuel);
    assert emitted + [] == emitted;
  }

  /** The shape of every walk: it starts with the given cursor, one request per
      page received plus the failing request of an aborted walk, every
      received page is exactly what the server answered to the cursor of its
      request, an aborted walk ends with the request that failed (no retry),
      and it never makes more requests than the fuel allows. */
  lemma {:induction false} WalkShape(fetch: PageSource, cursor: Cursor, fuel: nat)
    ensures var w := Paginate(fetch, cursor, fuel);
      && |w.requests| == |w.pages| + (if w.stop.Aborted? then 1 else 0)
      && |w.requests| <= fuel
      && (w.stop == OutOfFuel <==> |w.requests| == fuel && !w.stop.Aborted? && (fuel == 0 || Continues(w.requests[fuel - 1], w.pages[fuel - 1])))
      && (fuel > 0 ==> |w.requests| > 0 && w.requests[0] == cursor)
      && (forall k :: 0 <= k < |w.pages| ==> fetch(w.requests[k]) == Ok(w.pages[k]))
      && (w.stop.Aborted? ==> fetch(w.requests[|w.requests| - 1]) == Err(w.stop.error))
    decreases fuel
  {
    if fuel > 0 && fetch(cursor).Ok? && Continues(cursor, fetch(cursor).value) {
      var page := fetch(cursor).value;
      WalkShape(fetch, LastId(page), fuel - 1);
      var rest := Paginate(fetch, LastId(page), fuel - 1);
      var w := Paginate(fetch, cursor, fuel);
      assert w.requests == [cursor] + rest.requests && w.pages == [page] + rest.pages;
      forall k | 0 <= k < |w.pages|
        ensures fetch(w.requests[k]) == Ok(w.pages[k])
      {
        if k > 0 {
          assert w.requests[k] == rest.requests[k - 1] && w.pages[k] == rest.pages[k - 1];
        }
      }
    }
  }

  /** Every request after the first uses the last id of the page before it as
      its cursor. */
  lemma {:induction false} CursorIsLastId(fetch: PageSource, cursor: Cursor, fuel: nat)
    ensures var w := Paginate(fetch, cursor, fuel);
      forall k :: 0 <= k < |w.requests| - 1 ==> k < |w.pages| && w.requests[k + 1] == LastId(w.pages[k])
    decreases fuel
  {
    if fuel > 0 && fetch(cursor).Ok? && Continues(cursor, fetch(cursor).value) {
      var page := fetch(cursor).value;
      CursorIsLastId(fetch, LastId(page), fuel - 1);
      WalkShape(fetch, LastId(page), fuel - 1);
      var rest := Paginate(fetch, LastId(page), fuel - 1);
      var w := Paginate(fetch, cursor, fuel);
      forall k | 0 <= k < |w.requests| - 1
        ensures k < |w.pages| && w.requests[k + 1] == LastId(w.pages[k])
      {
        if k > 0 {
          assert w.requests[k + 1] == rest.requests[k] && w.pages[k] == rest.pages[k - 1];
        }
      }
    }
  }

  /** The stopping rule: every page but the last one received continued the
      walk; the walk ends `Exhausted` exactly when its last page stops it, that
      is, when that page is empty or ends with the id it was requested with. So
      the final page, a repeated one included, is received and emitted before
      the walk stops. */
  lemma {:induction false} StopRule(fetch: PageSource, cursor: Cursor, fuel: nat)
    ensures var w := Paginate(fetch, cursor, fuel);
      && (w.stop == Exhausted ==> |w.pages| > 0)
      && (forall k :: 0 <= k < |w.pages| ==>
            k < |w.requests| &&
            (Continues(w.requests[k], w.pages[k]) <==> !(k == |w.pages| - 1 && w.stop == Exhausted)))
    decreases fuel
  {
    WalkShape(fetch, cursor, fuel);
    if fuel > 0 && fetch(cursor).Ok? && Continues(cursor, fetch(cursor).value) {
      var page := fetch(cursor).value;
      StopRule(fetch, LastId(page), fuel - 1);
      WalkShape(fetch, LastId(page), fuel - 1);
      var rest := Paginate(fetch, LastId(page), fuel - 1);
      var w := Paginate(fetch, cursor, fuel);
      forall k | 0 <= k < |w.pages|
        ensures k < |w.requests|
        ensures Continues(w.requests[k], w.pages[k]) <==> !(k == |w.pages| - 1 && w.stop == Exhausted)
      {
        if k > 0 {
          assert w.requests[k] == rest.requests[k - 1] && w.pages[k] == rest.pages[k - 1];
        }
      }
    }
  }

  /** No request repeats the cursor of the request just before it, and every
      request after the first carries a cursor. */
  lemma ConsecutiveCursorsDiffer(fetch: PageSource, cursor: Cursor, fuel: nat)
    ensures var w := Paginate(fetch, cursor, fuel);
      forall k :: 1 <= k < |w.requests| ==> w.requests[k].Some? && w.requests[k] != w.requests[k - 1]
  {
    WalkShape(fetch, cursor, fuel);
    CursorIsLastId(fetch, cursor, fuel);
    StopRule(fetch, cursor, fuel);
    var w := Paginate(fetch, cursor, fuel);
    forall k | 1 <= k < |w.requests|
      ensures w.requests[k].Some? && w.requests[k] != w.requests[k - 1]
    {
      assert Continues(w.requests[k - 1], w.pages[k - 1]);
    }
  }

  /** A server that honours keyset pagination: every project of the page it
      returns for a cursor has an id above that cursor's `id_after`. */
  ghost predicate HonoursIdAfter(fetch: PageSource) {
    forall c: Cursor :: fetch(c).Ok? ==> AllAbove(fetch(c).value, IdAfter(c))
  }

  /** Every project of `ps` has an id above `bound`. */
  predicate AllAbove(ps: seq<Project>, bound: int) {
    forall i :: 0 <= i < |ps| ==> ps[i].id > bound
  }

  /** Against such a server the walk always ends on its own (empty or repeated
      page, or an error) within `2^64 - id_after` requests: each continuing
      page raises the cursor, and no id exceeds `u64::MAX`. */
  lemma {:induction false} HonestServerTerminates(fetch: PageSource, cursor: Cursor, fuel: nat)
    requires HonoursIdAfter(fetch)
    requires fuel >= U64_LIMIT - IdAfter(cursor)
    ensures Paginate(fetch, cursor, fuel).stop != OutOfFuel
    decreases fuel
  {
    var r := fetch(cursor);
    if r.Ok? && Continues(cursor, r.value) {
      var page := r.value;
      assert page[|page| - 1].id > IdAfter(cursor);
      HonestServerTerminates(fetch, LastId(page), fuel - 1);
    }
  }

  predicate IdsIncrease(ps: seq<Project>) {
    forall i, j :: 0 <= i < j < |ps| ==> ps[i].id < ps[j].id
  }

  /** A server that honours `id_after` and returns each page in ascending id
      order (`order_by=id&sort=asc`). */
  ghost predicate KeysetServer(fetch: PageSource) {
    HonoursIdAfter(fetch) && forall c: Cursor :: fetch(c).Ok? ==> IdsIncrease(fetch(c).value)
  }

  lemma IncreasingConcat(a: seq<Project>, b: seq<Project>, bound: int)
    requires IdsIncrease(a) && IdsIncrease(b) && a != []
    requires AllAbove(a, bound) && AllAbove(b, a[|a| - 1].id)
    ensures IdsIncrease(a + b) && AllAbove(a + b, bound)
  {
    var ab := a + b;
    forall i, j | 0 <= i < j < |ab|
      ensures ab[i].id < ab[j].id
    {
      if i < |a| && j >= |a| {
        assert ab[i].id <= a[|a| - 1].id;
      }
    }
  }

  /** What a keyset server promises about one page. */
  lemma KeysetPage(fetch: PageSource, cursor: Cursor)
    requires KeysetServer(fetch) && fetch(cursor).Ok?
    ensures IdsIncrease(fetch(cursor).value) && AllAbove(fetch(cursor).value, IdAfter(cursor))
  {
  }

  /** Against a keyset server the discovered projects come out in strictly
      increasing id order, so no project is discovered twice. */
  lemma {:induction false} KeysetServerDiscoversEachProjectOnce(fetch: PageSource, cursor: Cursor, fuel: nat)
    requires KeysetServer(fetch)
    ensures var ps := Flatten(Paginate(fetch, cursor, fuel).pages);
      IdsIncrease(ps) && AllAbove(ps, IdAfter(cursor))
    decreases fuel
  {
    EmittedStep(fetch, cursor, fuel);
    if fuel > 0 && fetch(cursor).Ok? {
      var page := fetch(cursor).value;
      KeysetPage(fetch, cursor);
      if Continues(cursor, page) {
        var next := LastId(page);
        KeysetServerDiscoversEachProjectOnce(fetch, next, fuel - 1);
        IncreasingConcat(page, Flatten(Paginate(fetch, next, fuel - 1).pages), IdAfter(cursor));
      }
    }
  }

  /** A server that answers every request with the same non-empty page: the page
      is received twice, once for the first request and once more for the
      request that then detects the repeat, and only then does the walk stop. */
  lemma RepeatedPageIsEmittedTwice(fetch: PageSource, p: Project, fuel: nat)
    requires forall c :: fetch(c) == Ok([p])
    requires fuel >= 2
    ensures var w := Paginate(fetch, None, fuel);
      w.pages == [[p], [p]] && w.requests == [None, Some(p.id)] && w.stop == Exhausted
  {
    assert fetch(None) == Ok([p]);
    assert Paginate(fetch, Some(p.id), fuel - 1) == Walk([Some(p.id)], [[p]], Exhausted) by {
      assert fetch(Some(p.id)) == Ok([p]);
    }
  }

  /** Project 1 on the first page, project 2 on the page after id 1, and an
      empty page after id 2: three requests, both projects emitted, and the
      walk ends on its own. */
  lemma TwoPagesScenario(fetch: PageSource, p1: Project, p2: Project, fuel: nat)
    requires p1.id == 1 && p2.id == 2 && fuel >= 3
    requires fetch(None) == Ok([p1]) && fetch(Some(1)) == Ok([p2]) && fetch(Some(2)) == Ok([])
    ensures var w := Paginate(fetch, None, fuel);
      w == Walk([None, Some(1), Some(2)], [[p1], [p2], []], Exhausted) && Flatten(w.pages) == [p1, p2]
  {
    var w := Paginate(fetch, None, fuel);
    assert Paginate(fetch, Some(2), fuel - 2) == Walk([Some(2)], [[]], Exhausted);
    assert Paginate(fetch, Some(1), fuel - 1) == Walk([Some(1), Some(2)], [[p2], []], Exhausted);
    var first, two := [[p1]], [[p1], [p2]];
    assert first[..0] == [] && Flatten(first) == [p1];
    assert two[..1] == first && Flatten(two) == [p1] + [p2];
    assert w.pages[..2] == two && Flatten(w.pages) == Flatten(two) + [];
  }
}
