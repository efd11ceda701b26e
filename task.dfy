/**
 * The breadth-first crawl of `TaskManager` (src/worker/task.rs): a FIFO frontier,
 * a visited set that is claimed before each fetch, and a progress counter.
 *
 * The page fetch is a parameter `fetch: Url -> seq<Url>`. Clocks are parameters
 * (`now`, `createdAt`, `endedAt`). The JSON file that `save_task_info` writes is the
 * field `persisted`. The ghost field `fetched` records every URL handed to `fetch`, in order.
 */
module Task {
  import opened Wrappers
  import Text

  type Url = string

  /** A task id: `Utc::now().timestamp() as u32`. */
  type TaskId = x: int | 0 <= x < 0x1_0000_0000

  datatype TaskStatus = Running | Paused | Stopped

  datatype TaskInfo = TaskInfo(id: TaskId, name: string, progress: nat, createdAt: string, endedAt: Option<string>)

  /** The state the loop of `run` works on, with the log of fetched URLs. */
  datatype Frontier = Frontier(visited: set<Url>, queue: seq<Url>, progress: nat, fetched: seq<Url>)

  /** The truncating cast of a signed timestamp to `u32`: its low 32 bits. */
  function TaskIdOf(timestamp: int): (id: TaskId)
    ensures timestamp % 0x1_0000_0000 == id
    ensures 0 <= timestamp < 0x1_0000_0000 ==> id == timestamp
  {
    timestamp % 0x1_0000_0000
  }

  /** Ids repeat: timestamps 2^32 seconds apart get the same id, so ids are not unique. */
  lemma TaskIdRepeats(t: int)
    ensures TaskIdOf(t + 0x1_0000_0000) == TaskIdOf(t)
  {
  }

  /** The links of `links` that are not in `visited`, in their order (the inner `for` of `run`). */
  function Unvisited(links: seq<Url>, visited: set<Url>): (r: seq<Url>)
    ensures |r| <= |links|
    ensures forall i :: 0 <= i < |r| ==> r[i] !in visited
  {
    if links == [] then []
    else
      var last := links[|links| - 1];
      Unvisited(links[..|links| - 1], visited) + (if last in visited then [] else [last])
  }

  /** `Unvisited` keeps exactly the links outside `visited`. */
  lemma {:induction false} UnvisitedMembers(links: seq<Url>, visited: set<Url>)
    ensures forall l :: l in Unvisited(links, visited) <==> l in links && l !in visited
  {
    if links != [] {
      var init := links[..|links| - 1];
      UnvisitedMembers(init, visited);
      assert links == init + [links[|links| - 1]];
    }
  }

  lemma UnvisitedPrefix(links: seq<Url>, i: nat, visited: set<Url>)
    requires i < |links|
    ensures Unvisited(links[..i + 1], visited)
      == Unvisited(links[..i], visited) + (if links[i] in visited then [] else [links[i]])
  {
    assert links[..i + 1][..i] == links[..i];
  }

  /** The inner `for` of `run`: push to the back of `queue` each link not in `visited`, in order. */
  method EnqueueUnvisited(queue: seq<Url>, links: seq<Url>, visited: set<Url>) returns (r: seq<Url>)
    ensures r == queue + Unvisited(links, visited)
  {
    r := queue;
    var i := 0;
    while i < |links|
      invariant 0 <= i <= |links|
      invariant r == queue + Unvisited(links[..i], visited)
    {
      UnvisitedPrefix(links, i, visited);
      if links[i] !in visited {
        r := r + [links[i]];
      }
      i := i + 1;
    }
    assert links[..|links|] == links;
  }

  /** One turn of the loop of `run`: pop the front URL; if it is new, claim it, fetch it and enqueue its unvisited links. */
  function Step(fetch: Url -> seq<Url>, f: Frontier): (r: Frontier)
    requires f.queue != []
    ensures r.visited == f.visited + {f.queue[0]}
  {
    var url := f.queue[0];
    if url in f.visited then f.(queue := f.queue[1..])
    else
      var v := f.visited + {url};
      Frontier(v, f.queue[1..] + Unvisited(fetch(url), v), f.progress + 1, f.fetched + [url])
  }

  /**
   * A turn takes the front URL and keeps the rest of the queue in order; it claims the URL
   * before fetching; a URL already visited is dropped without a fetch; the links appended at
   * the back are exactly those of the fetched page that are not visited.
   */
  lemma StepSpec(fetch: Url -> seq<Url>, f: Frontier)
    requires f.queue != []
    ensures var g := Step(fetch, f);
      && g.visited == f.visited + {f.queue[0]}
      && |f.queue| - 1 <= |g.queue| && g.queue[..|f.queue| - 1] == f.queue[1..]
      && (forall l :: l in g.queue[|f.queue| - 1..] ==> l in fetch(f.queue[0]) && l !in g.visited)
      && (f.queue[0] in f.visited ==> g == f.(queue := f.queue[1..]))
      && (f.queue[0] !in f.visited ==>
           && (forall l :: l in fetch(f.queue[0]) && l !in g.visited ==> l in g.queue[|f.queue| - 1..])
           && g.progress == f.progress + 1
           && g.fetched == f.fetched + [f.queue[0]])
  {
    var url := f.queue[0];
    if url !in f.visited {
      var g := Step(fetch, f);
      UnvisitedMembers(fetch(url), g.visited);
      assert g.queue[|f.queue| - 1..] == Unvisited(fetch(url), g.visited);
    }
  }

  /** The bookkeeping half of `StepSpec`, without the facts about the queue. */
  lemma StepCounts(fetch: Url -> seq<Url>, f: Frontier)
    requires f.queue != []
    ensures var g := Step(fetch, f);
      && g.visited == f.visited + {f.queue[0]}
      && (f.queue[0] in f.visited ==> g.progress == f.progress && g.fetched == f.fetched)
      && (f.queue[0] !in f.visited ==> g.progress == f.progress + 1 && g.fetched == f.fetched + [f.queue[0]])
  {
  }

  /** After a new URL's turn, each of its links is visited or queued. */
  lemma StepLinksQueued(fetch: Url -> seq<Url>, f: Frontier)
    requires f.queue != [] && f.queue[0] !in f.visited
    ensures forall l :: l in fetch(f.queue[0]) ==> l in Step(fetch, f).visited || l in Step(fetch, f).queue
  {
    var g := Step(fetch, f);
    UnvisitedMembers(fetch(f.queue[0]), g.visited);
    assert g.queue == f.queue[1..] + Unvisited(fetch(f.queue[0]), g.visited);
  }

  /** Every link of a page in `universe` is in `universe`. */
  ghost predicate Closed(fetch: Url -> seq<Url>, universe: set<Url>)
  {
    forall u :: u in universe ==> Within(fetch(u), universe)
  }

  ghost predicate Within(queue: seq<Url>, universe: set<Url>)
  {
    forall u :: u in queue ==> u in universe
  }

  lemma ClaimShrinks(universe: set<Url>, visited: set<Url>, url: Url)
    requires url in universe && url !in visited
    ensures |universe - (visited + {url})| < |universe - visited|
  {
    assert universe - (visited + {url}) == (universe - visited) - {url};
  }

  lemma StepWithin(fetch: Url -> seq<Url>, universe: set<Url>, f: Frontier)
    requires Closed(fetch, universe) && Within(f.queue, universe) && f.queue != []
    ensures Within(Step(fetch, f).queue, universe)
    ensures f.queue[0] !in f.visited ==> |universe - Step(fetch, f).visited| < |universe - f.visited|
  {
    var g := Step(fetch, f);
    StepSpec(fetch, f);
    var n := |f.queue| - 1;
    forall u | u in g.queue
      ensures u in universe
    {
      var i :| 0 <= i < |g.queue| && g.queue[i] == u;
      if i < n {
        assert u == f.queue[1..][i];
      } else {
        assert u in g.queue[n..];
      }
    }
    if f.queue[0] !in f.visited {
      ClaimShrinks(universe, f.visited, f.queue[0]);
    }
  }

  /** The state in which `run` leaves the frontier: `Step` until the queue is empty. */
  ghost function Drain(fetch: Url -> seq<Url>, universe: set<Url>, f: Frontier): (r: Frontier)
    requires Closed(fetch, universe) && Within(f.queue, universe)
    ensures r.queue == []
    decreases |universe - f.visited|, |f.queue|
  {
    if f.queue == [] then f
    else
      StepWithin(fetch, universe, f);
      Drain(fetch, universe, Step(fetch, f))
  }

  /** One turn of `run` keeps the final state, stays within `universe` and lowers the measure. */
  lemma DrainStep(fetch: Url -> seq<Url>, universe: set<Url>, f: Frontier)
    requires Closed(fetch, universe) && Within(f.queue, universe) && f.queue != []
    ensures var g := Step(fetch, f);
      && Within(g.queue, universe)
      && Drain(fetch, universe, f) == Drain(fetch, universe, g)
      && (|universe - g.visited| < |universe - f.visited| || (g.visited == f.visited && |g.queue| < |f.queue|))
  {
    StepWithin(fetch, universe, f);
  }

  lemma SplitHead<T>(s: seq<T>, n: nat)
    requires n < |s|
    ensures s[n..] == [s[n]] + s[n + 1..]
  {
  }

  /** `visited` only grows, and every URL that was in the queue ends up visited. */
  lemma {:induction false} DrainVisitsQueue(fetch: Url -> seq<Url>, universe: set<Url>, f: Frontier)
    requires Closed(fetch, universe) && Within(f.queue, universe)
    ensures f.visited <= Drain(fetch, universe, f).visited
    ensures forall u :: u in f.queue ==> u in Drain(fetch, universe, f).visited
    decreases |universe - f.visited|, |f.queue|
  {
    if f.queue != [] {
      var g := Step(fetch, f);
      StepSpec(fetch, f);
      StepWithin(fetch, universe, f);
      DrainVisitsQueue(fetch, universe, g);
      forall u | u in f.queue
        ensures u in Drain(fetch, universe, f).visited
      {
        var i :| 0 <= i < |f.queue| && f.queue[i] == u;
        if i > 0 {
          assert u == g.queue[..|f.queue| - 1][i - 1];
        }
      }
    }
  }

  /** The URLs fetched before the run stay in place, and progress counts the URLs fetched. */
  lemma {:induction false} DrainFetchedGrows(fetch: Url -> seq<Url>, universe: set<Url>, f: Frontier)
    requires Closed(fetch, universe) && Within(f.queue, universe)
    ensures var r := Drain(fetch, universe, f);
      && |f.fetched| <= |r.fetched| && r.fetched[..|f.fetched|] == f.fetched
      && r.progress == f.progress + |r.fetched| - |f.fetched|
    decreases |universe - f.visited|, |f.queue|
  {
    if f.queue != [] {
      var g := Step(fetch, f);
      StepCounts(fetch, f);
      StepWithin(fetch, universe, f);
      DrainFetchedGrows(fetch, universe, g);
      var r := Drain(fetch, universe, f);
      if f.queue[0] !in f.visited {
        assert r.fetched[..|f.fetched|] == g.fetched[..|f.fetched|];
      }
    }
  }

  /** The URLs fetched during the run are exactly those it adds to `visited`. */
  lemma {:induction false} DrainFetchesNew(fetch: Url -> seq<Url>, universe: set<Url>, f: Frontier)
    requires Closed(fetch, universe) && Within(f.queue, universe)
    ensures var r := Drain(fetch, universe, f);
      && |f.fetched| <= |r.fetched|
      && forall u :: u in r.fetched[|f.fetched|..] <==> u in r.visited && u !in f.visited
    decreases |universe - f.visited|, |f.queue|
  {
    DrainFetchedGrows(fetch, universe, f);
    if f.queue != [] {
      var g := Step(fetch, f);
      StepCounts(fetch, f);
      StepWithin(fetch, universe, f);
      DrainFetchesNew(fetch, universe, g);
      DrainFetchedGrows(fetch, universe, g);
      DrainVisitsQueue(fetch, universe, g);
      var r := Drain(fetch, universe, f);
      var url := f.queue[0];
      if url !in f.visited {
        var n := |f.fetched|;
        assert r.fetched[n] == g.fetched[n] == url;
        SplitHead(r.fetched, n);
      }
    }
  }

  /** No URL is fetched twice during the run. */
  lemma {:induction false} DrainFetchesOnce(fetch: Url -> seq<Url>, universe: set<Url>, f: Frontier)
    requires Closed(fetch, universe) && Within(f.queue, universe)
    ensures var r := Drain(fetch, universe, f);
      forall i, j :: |f.fetched| <= i < j < |r.fetched| ==> r.fetched[i] != r.fetched[j]
    decreases |universe - f.visited|, |f.queue|
  {
    if f.queue != [] {
      var g := Step(fetch, f);
      StepCounts(fetch, f);
      StepWithin(fetch, universe, f);
      DrainFetchesOnce(fetch, universe, g);
      DrainFetchedGrows(fetch, universe, g);
      DrainFetchesNew(fetch, universe, g);
      var r := Drain(fetch, universe, f);
      var url := f.queue[0];
      if url !in f.visited {
        var n := |f.fetched|;
        assert r.fetched[n] == g.fetched[n] == url;
        forall i, j | n <= i < j < |r.fetched|
          ensures r.fetched[i] != r.fetched[j]
        {
          if i == n {
            assert r.fetched[j] in r.fetched[n + 1..];
          }
        }
      }
    }
  }

  /** Progress rises by exactly the number of URLs newly added to `visited`. */
  lemma {:induction false} DrainProgress(fetch: Url -> seq<Url>, universe: set<Url>, f: Frontier)
    requires Closed(fetch, universe) && Within(f.queue, universe)
    ensures var r := Drain(fetch, universe, f);
      r.progress == f.progress + |r.visited - f.visited|
    decreases |universe - f.visited|, |f.queue|
  {
    if f.queue != [] {
      var g := Step(fetch, f);
      StepCounts(fetch, f);
      StepWithin(fetch, universe, f);
      DrainProgress(fetch, universe, g);
      DrainVisitsQueue(fetch, universe, g);
      var r := Drain(fetch, universe, f);
      var url := f.queue[0];
      if url !in f.visited {
        assert r.visited - f.visited == (r.visited - g.visited) + {url};
      }
    }
  }

  /** Every link of every page fetched during the run ends up visited. */
  lemma {:induction false} DrainLinksVisited(fetch: Url -> seq<Url>, universe: set<Url>, f: Frontier)
    requires Closed(fetch, universe) && Within(f.queue, universe)
    ensures var r := Drain(fetch, universe, f);
      forall i, l :: |f.fetched| <= i < |r.fetched| && l in fetch(r.fetched[i]) ==> l in r.visited
    decreases |universe - f.visited|, |f.queue|
  {
    if f.queue != [] {
      var g := Step(fetch, f);
      StepCounts(fetch, f);
      StepWithin(fetch, universe, f);
      DrainLinksVisited(fetch, universe, g);
      DrainFetchedGrows(fetch, universe, g);
      var r := Drain(fetch, universe, f);
      var url := f.queue[0];
      if url !in f.visited {
        var n := |f.fetched|;
        assert r.fetched[n] == g.fetched[n] == url;
        NewUrlLinksVisited(fetch, universe, f);
      }
    }
  }

  /** The links of a URL fetched in the first turn are visited when the loop ends. */
  lemma NewUrlLinksVisited(fetch: Url -> seq<Url>, universe: set<Url>, f: Frontier)
    requires Closed(fetch, universe) && Within(f.queue, universe)
    requires f.queue != [] && f.queue[0] !in f.visited
    ensures forall l :: l in fetch(f.queue[0]) ==> l in Drain(fetch, universe, f).visited
  {
    var g := Step(fetch, f);
    StepWithin(fetch, universe, f);
    StepLinksQueued(fetch, f);
    DrainVisitsQueue(fetch, universe, g);
  }

  /** The fetch of task.rs: two links under the fetched URL. */
  function StubFetch(url: Url): (links: seq<Url>)
    ensures |links| == 2 && forall l :: l in links ==> |url| < |l|
  {
    [url + "/link1", url + "/link2"]
  }

  lemma {:induction false} LongestExists(urls: set<Url>) returns (u: Url)
    requires urls != {}
    ensures u in urls && forall v :: v in urls ==> |v| <= |u|
    decreases |urls|
  {
    var x :| x in urls;
    if urls == {x} {
      u := x;
    } else {
      var y := LongestExists(urls - {x});
      u := if |x| <= |y| then y else x;
    }
  }

  /** No non-empty finite set of URLs is closed under the stub fetch, so no `universe` makes `Run` applicable to it. */
  lemma StubHasNoFiniteUniverse(universe: set<Url>)
    requires universe != {}
    ensures !Closed(StubFetch, universe)
  {
    var u := LongestExists(universe);
    var l := StubFetch(u)[0];
    assert l in StubFetch(u) && l !in universe;
  }

  /** The state after `n` turns of the loop of `run`, or after fewer when the queue empties first. */
  function Turns(fetch: Url -> seq<Url>, f: Frontier, n: nat): (r: Frontier)
    ensures f.visited <= r.visited
    decreases n
  {
    if n == 0 || f.queue == [] then f else Turns(fetch, Step(fetch, f), n - 1)
  }

  /** `u` is queued, not visited, and longer than every visited URL. */
  ghost predicate QueuedLongest(f: Frontier, u: Url)
  {
    u in f.queue && u !in f.visited && forall v :: v in f.visited ==> |v| < |u|
  }

  /** With the stub fetch, one turn keeps some queued URL longer than everything visited. */
  lemma StubTurnKeepsLongest(f: Frontier, u: Url) returns (w: Url)
    requires QueuedLongest(f, u)
    ensures f.queue != [] && QueuedLongest(Step(StubFetch, f), w)
  {
    var x := f.queue[0];
    var g := Step(StubFetch, f);
    var n := |f.queue| - 1;
    StepSpec(StubFetch, f);
    if x in f.visited || (u != x && |x| < |u|) {
      var i :| 0 <= i < |f.queue| && f.queue[i] == u;
      assert u == g.queue[..n][i - 1];
      w := u;
    } else {
      var l := x + "/link1";
      assert l in StubFetch(x);
      assert l in g.queue[n..];
      w := l;
    }
  }

  lemma {:induction false} StubNeverDrains(f: Frontier, u: Url, n: nat)
    requires QueuedLongest(f, u)
    ensures Turns(StubFetch, f, n).queue != []
    decreases n
  {
    var w := StubTurnKeepsLongest(f, u);
    if n > 0 {
      StubNeverDrains(Step(StubFetch, f), w, n - 1);
    }
  }

  /**
   * From the state `new` leaves, with at least one start URL, the loop of `run` with the
   * stub fetch still has a queued URL after any number of turns: it never ends.
   */
  lemma StubRunNeverEnds(startUrls: seq<Url>, n: nat)
    requires startUrls != []
    ensures Turns(StubFetch, Frontier({}, startUrls, 0, []), n).queue != []
  {
    StubNeverDrains(Frontier({}, startUrls, 0, []), startUrls[0], n);
  }

  /** The stub loop can end: once `load_state` has claimed a seed's two links, that seed's turn leaves the queue empty. */
  lemma StubEndsWhenLinksLoaded()
    ensures Step(StubFetch, Frontier({"a/link1", "a/link2"}, ["a"], 0, [])).queue == []
  {
    var v := {"a/link1", "a/link2", "a"};
    assert "a" + "/link1" == "a/link1" && "a" + "/link2" == "a/link2";
    UnvisitedMembers(StubFetch("a"), v);
    var r := Unvisited(StubFetch("a"), v);
    var f := Frontier({"a/link1", "a/link2"}, ["a"], 0, []);
    assert f.visited + {f.queue[0]} == v;
    assert Step(StubFetch, f).queue == f.queue[1..] + r;
  }

  /** `save_state` followed by `load_state` yields exactly the saved set, for URLs that are single lines. */
  lemma SaveLoadRoundTrip(order: seq<Url>, visited: set<Url>)
    requires forall u :: u in order <==> u in visited
    requires forall u :: u in visited ==> Text.LineSafe(u)
    ensures (set l | l in Text.SplitLines(Text.Render(order))) == visited
  {
    Text.RenderRoundTrip(order);
  }

  class TaskManager {
    var visited: set<Url>
    var toVisit: seq<Url>
    var status: TaskStatus
    var info: TaskInfo
    /** The record `save_task_info` last wrote to `tasks/<name>/task_info.json`. */
    var persisted: TaskInfo
    ghost var fetched: seq<Url>

    ghost function State(): Frontier
      reads this
    {
      Frontier(visited, toVisit, info.progress, fetched)
    }

    /** `TaskManager::new`: nothing visited, the seeds queued in order, a fresh record saved. */
    constructor (startUrls: seq<Url>, taskName: string, now: int, createdAt: string)
      ensures visited == {} && toVisit == startUrls && status == Running
      ensures info == TaskInfo(TaskIdOf(now), taskName, 0, createdAt, None)
      ensures persisted == info && fetched == []
    {
      var taskInfo := TaskInfo(TaskIdOf(now), taskName, 0, createdAt, None);
      persisted := taskInfo;
      visited := {};
      toVisit := startUrls;
      status := Running;
      info := taskInfo;
      fetched := [];
    }

    /**
     * `TaskManager::run`. The loop ends because every URL is in `universe`, which is
     * finite and closed under `fetch`; the result is `Drain` of the state on entry.
     */
    method Run(fetch: Url -> seq<Url>, ghost universe: set<Url>, endedAt: string)
      requires Closed(fetch, universe) && Within(toVisit, universe)
      modifies this
      ensures State() == Drain(fetch, universe, old(State()))
      ensures status == Running
      ensures info == old(info).(progress := info.progress, endedAt := Some(endedAt))
      ensures persisted == info
    {
      status := Running;
      while toVisit != []
        invariant status == Running
        invariant Within(toVisit, universe)
        invariant Drain(fetch, universe, State()) == Drain(fetch, universe, old(State()))
        invariant info == old(info).(progress := info.progress)
        decreases |universe - visited|, |toVisit|
      {
        DrainStep(fetch, universe, State());
        var halt := Turn(fetch);
        if halt {
          break;
        }
      }
      info := info.(endedAt := Some(endedAt));
      persisted := info;
    }

    /**
     * One pass of the loop of `run`: pop the front URL; stop if the task was paused or
     * stopped; otherwise claim, fetch and enqueue, unless the URL was already visited.
     */
    method Turn(fetch: Url -> seq<Url>) returns (halt: bool)
      requires toVisit != []
      modifies this`visited, this`toVisit, this`fetched, this`info, this`persisted
      ensures halt <==> status == Paused || status == Stopped
      ensures halt ==> State() == old(State()).(queue := old(toVisit)[1..]) && info == old(info)
      ensures !halt ==> State() == Step(fetch, old(State()))
      ensures info == old(info).(progress := info.progress)
      ensures !halt && old(toVisit)[0] !in old(visited) ==> persisted == info
      ensures halt || old(toVisit)[0] in old(visited) ==> persisted == old(persisted)
    {
      var url := toVisit[0];
      toVisit := toVisit[1..];
      if status == Paused || status == Stopped {
        return true;
      }
      if url !in visited {
        visited := visited + {url};
        fetched := fetched + [url];
        var links := fetch(url);
        toVisit := EnqueueUnvisited(toVisit, links, visited);
        info := info.(progress := info.progress + 1);
        persisted := info;
      }
      return false;
    }

    /** `TaskManager::save_state`: every visited URL on its own line, in some order. */
    method SaveState() returns (text: string, order: seq<Url>)
      ensures forall u :: u in order <==> u in visited
      ensures forall i, j :: 0 <= i < j < |order| ==> order[i] != order[j]
      ensures text == Text.Render(order)
    {
      var rest := visited;
      text := "";
      order := [];
      while rest != {}
        invariant rest <= visited
        invariant forall u :: u in order <==> u in visited && u !in rest
        invariant forall i, j :: 0 <= i < j < |order| ==> order[i] != order[j]
        invariant text == Text.Render(order)
        decreases |rest|
      {
        var url :| url in rest;
        Text.RenderSnoc(order, url);
        text := text + url + "\n";
        order := order + [url];
        rest := rest - {url};
      }
    }

    /** `TaskManager::load_state`: each line of `text` is added to `visited`; nothing is removed. */
    method LoadState(text: string)
      modifies this`visited
      ensures visited == old(visited) + set l | l in Text.SplitLines(text)
    {
      var lines := Text.SplitLines(text);
      var i := 0;
      while i < |lines|
        invariant 0 <= i <= |lines|
        invariant visited == old(visited) + set l | l in lines[..i]
      {
        assert lines[..i + 1] == lines[..i] + [lines[i]];
        visited := visited + {lines[i]};
        i := i + 1;
      }
      assert lines[..|lines|] == lines;
    }

    /** `TaskManager::pause`: only the status changes. */
    method Pause()
      modifies this`status
      ensures status == Paused
    {
      status := Paused;
    }

    /** `TaskManager::stop`: only the status changes. */
    method Stop()
      modifies this`status
      ensures status == Stopped
    {
      status := Stopped;
    }
  }
}
