/**
 * `Worker::execute` (src/worker/worker.rs): a depth-bounded recursive crawl with no
 * deduplication. The fetcher, parser and writer are collaborators: `fetch` and `parse`
 * are parameters, and the calls to the fetcher and the writer are returned as a trace.
 */
module Worker {
  import Task

  type Url = Task.Url

  /** `CrawlTask`: a URL and the number of levels still to crawl from it. */
  datatype CrawlTask = CrawlTask(url: Url, depth: nat)

  /** A call into a collaborator: `Fetcher::fetch` or `Writer::write`. */
  datatype Effect = Fetch(url: Url) | Write(url: Url, content: string)

  /**
   * Every fetch is immediately followed by the write of that URL with the content
   * just fetched, and nothing else is in the trace.
   */
  predicate Paired(fetch: Url -> string, t: seq<Effect>)
    decreases |t|
  {
    if t == [] then true
    else |t| >= 2 && t[0].Fetch? && t[1] == Write(t[0].url, fetch(t[0].url)) && Paired(fetch, t[2..])
  }

  lemma {:induction false} PairedAppend(fetch: Url -> string, a: seq<Effect>, b: seq<Effect>)
    requires Paired(fetch, a) && Paired(fetch, b)
    ensures Paired(fetch, a + b)
    decreases |a|
  {
    if a != [] {
      PairedAppend(fetch, a[2..], b);
      assert (a + b)[0] == a[0] && (a + b)[1] == a[1];
      assert (a + b)[2..] == a[2..] + b;
      assert Paired(fetch, (a + b)[2..]);
    } else {
      assert a + b == b;
    }
  }

  /**
   * `Worker::execute`: at depth 0 nothing happens; otherwise the URL is fetched, its
   * content written, and each parsed link executed at depth - 1, in parser order.
   */
  function Execute(fetch: Url -> string, parse: string -> seq<Url>, task: CrawlTask): (r: seq<Effect>)
    ensures Paired(fetch, r)
    ensures r == [] <==> task.depth == 0
    ensures r != [] ==> r[0] == Fetch(task.url)
    decreases task.depth, 0
  {
    if task.depth == 0 then []
    else
      var content := fetch(task.url);
      var links := parse(content);
      var head := [Fetch(task.url), Write(task.url, content)];
      var rest := ExecuteAll(fetch, parse, links, task.depth - 1);
      assert head[2..] == [];
      PairedAppend(fetch, head, rest);
      head + rest
  }

  /** The loop over the parsed links: one `execute` per link, each at `depth`. */
  function ExecuteAll(fetch: Url -> string, parse: string -> seq<Url>, links: seq<Url>, depth: nat): (r: seq<Effect>)
    ensures Paired(fetch, r)
    ensures depth == 0 ==> r == []
    decreases depth, 1, |links|
  {
    if links == [] then []
    else
      var first := Execute(fetch, parse, CrawlTask(links[0], depth));
      var rest := ExecuteAll(fetch, parse, links[1..], depth);
      PairedAppend(fetch, first, rest);
      first + rest
  }

  /** The links are executed one after another: the trace of a concatenation is the concatenation of the traces. */
  lemma {:induction false} ExecuteAllAppend(fetch: Url -> string, parse: string -> seq<Url>, a: seq<Url>, b: seq<Url>, depth: nat)
    ensures ExecuteAll(fetch, parse, a + b, depth) == ExecuteAll(fetch, parse, a, depth) + ExecuteAll(fetch, parse, b, depth)
    decreases |a|
  {
    if a != [] {
      var first := Execute(fetch, parse, CrawlTask(a[0], depth));
      assert (a + b)[0] == a[0];
      assert (a + b)[1..] == a[1..] + b;
      ExecuteAllAppend(fetch, parse, a[1..], b, depth);
      calc {
        ExecuteAll(fetch, parse, a + b, depth);
        first + ExecuteAll(fetch, parse, a[1..] + b, depth);
        first + (ExecuteAll(fetch, parse, a[1..], depth) + ExecuteAll(fetch, parse, b, depth));
        (first + ExecuteAll(fetch, parse, a[1..], depth)) + ExecuteAll(fetch, parse, b, depth);
        ExecuteAll(fetch, parse, a, depth) + ExecuteAll(fetch, parse, b, depth);
      }
    } else {
      assert a + b == b;
    }
  }

  /** One link alone is one `execute` at the given depth. */
  lemma ExecuteAllSingle(fetch: Url -> string, parse: string -> seq<Url>, link: Url, depth: nat)
    ensures ExecuteAll(fetch, parse, [link], depth) == Execute(fetch, parse, CrawlTask(link, depth))
  {
  }

  /** Pairing read position by position: fetches at even places, each followed by its write. */
  lemma {:induction false} PairedAlternates(fetch: Url -> string, t: seq<Effect>)
    requires Paired(fetch, t)
    ensures |t| % 2 == 0
    ensures forall i :: 0 <= i < |t| ==> (t[i].Fetch? <==> i % 2 == 0)
    ensures forall i :: 0 <= i < |t| && i % 2 == 0 ==> i + 1 < |t| && t[i + 1] == Write(t[i].url, fetch(t[i].url))
    decreases |t|
  {
    if t != [] {
      var rest := t[2..];
      PairedAlternates(fetch, rest);
      forall i | 2 <= i < |t|
        ensures t[i] == rest[i - 2]
      {
      }
    }
  }

  /** `to` is reached from `from` by following exactly `hops` parsed links. */
  ghost predicate Reaches(fetch: Url -> string, parse: string -> seq<Url>, from: Url, to: Url, hops: nat)
    decreases hops
  {
    if hops == 0 then from == to
    else exists l :: l in parse(fetch(from)) && Reaches(fetch, parse, l, to, hops - 1)
  }

  /** `to` is reached from `from` in fewer hops than `depth`. */
  ghost predicate ReachedWithin(fetch: Url -> string, parse: string -> seq<Url>, from: Url, to: Url, depth: nat)
  {
    exists k :: 0 <= k < depth && Reaches(fetch, parse, from, to, k)
  }

  /** A URL is fetched exactly when it is reached from the task's URL in fewer hops than the depth. */
  lemma {:induction false} FetchedIffReached(fetch: Url -> string, parse: string -> seq<Url>, task: CrawlTask, u: Url)
    ensures Fetch(u) in Execute(fetch, parse, task) <==> ReachedWithin(fetch, parse, task.url, u, task.depth)
    decreases task.depth, 0
  {
    if task.depth > 0 {
      var content := fetch(task.url);
      var links := parse(content);
      var d := task.depth - 1;
      var rest := ExecuteAll(fetch, parse, links, d);
      assert Execute(fetch, parse, task) == [Fetch(task.url), Write(task.url, content)] + rest;
      FetchedIffReachedAll(fetch, parse, links, d, u);
      if Fetch(u) in Execute(fetch, parse, task) {
        if u == task.url {
          assert Reaches(fetch, parse, task.url, u, 0);
        } else {
          assert Fetch(u) in rest;
          var l :| l in links && ReachedWithin(fetch, parse, l, u, d);
          var k :| 0 <= k < d && Reaches(fetch, parse, l, u, k);
          assert Reaches(fetch, parse, task.url, u, k + 1);
        }
      }
      if ReachedWithin(fetch, parse, task.url, u, task.depth) {
        var k :| 0 <= k < task.depth && Reaches(fetch, parse, task.url, u, k);
        if k != 0 {
          var l :| l in links && Reaches(fetch, parse, l, u, k - 1);
          assert ReachedWithin(fetch, parse, l, u, d);
          assert Fetch(u) in rest;
        }
      }
    }
  }

  lemma {:induction false} FetchedIffReachedAll(fetch: Url -> string, parse: string -> seq<Url>, links: seq<Url>, depth: nat, u: Url)
    ensures Fetch(u) in ExecuteAll(fetch, parse, links, depth)
        <==> exists l :: l in links && ReachedWithin(fetch, parse, l, u, depth)
    decreases depth, 1, |links|
  {
    if links != [] {
      var first := Execute(fetch, parse, CrawlTask(links[0], depth));
      var rest := ExecuteAll(fetch, parse, links[1..], depth);
      assert ExecuteAll(fetch, parse, links, depth) == first + rest;
      FetchedIffReached(fetch, parse, CrawlTask(links[0], depth), u);
      FetchedIffReachedAll(fetch, parse, links[1..], depth, u);
      if Fetch(u) in first {
        assert links[0] in links;
      }
      if Fetch(u) in rest {
        var l :| l in links[1..] && ReachedWithin(fetch, parse, l, u, depth);
        assert l in links;
      }
      if exists l :: l in links && ReachedWithin(fetch, parse, l, u, depth) {
        var l :| l in links && ReachedWithin(fetch, parse, l, u, depth);
        if l != links[0] {
          assert l in links[1..];
        }
      }
    }
  }

  /**
   * No deduplication: a page that links to "x" twice has "x" fetched and written twice.
   * Every page is empty and links to "x" twice; the crawl starts at "s" with depth 2.
   */
  lemma LinkedTwiceFetchedTwice()
    ensures Execute(_ => "", _ => ["x", "x"], CrawlTask("s", 2))
         == [Fetch("s"), Write("s", ""), Fetch("x"), Write("x", ""), Fetch("x"), Write("x", "")]
  {
  }
}
