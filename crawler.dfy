/**
 * `Crawler` (src/worker/crawler.rs): builds its collaborators from a `Config`, keeps a
 * list of aspects, and on `run` logs in when configured and then executes one
 * depth-bounded crawl per start URL.
 */
module Crawler {
  import opened Wrappers
  import Worker

  type Url = Worker.Url

  /** `LoginConfig` of src/config/mod.rs. */
  datatype LoginConfig = LoginConfig(username: string, password: string, loginUrl: string)

  /** `Config` of src/config/mod.rs, once parsed. */
  datatype Config = Config(startUrls: seq<Url>, maxDepth: nat, proxy: Option<string>, login: Option<LoginConfig>)

  /** `Authenticator`: the login settings it posts. */
  datatype Authenticator = Authenticator(loginConfig: LoginConfig)

  /** `Fetcher`: the HTTP client, built with the configured proxy. */
  datatype Fetcher = Fetcher(proxy: Option<string>)

  /** A registered aspect; the crawler stores aspects and never calls their hooks. */
  datatype Aspect = Aspect(name: string)

  /** What `run` does, in order: `Authenticator::login`, or one `Worker::execute` with its trace. */
  datatype Event = Login(loginConfig: LoginConfig) | Crawl(task: Worker.CrawlTask, trace: seq<Worker.Effect>)

  /** The collaborator calls of a run, crawl after crawl. */
  function Effects(events: seq<Event>): (r: seq<Worker.Effect>)
    ensures forall e, x :: e in events && e.Crawl? && x in e.trace ==> x in r
  {
    if events == [] then []
    else (if events[|events| - 1].Crawl? then Effects(events[..|events| - 1]) + events[|events| - 1].trace
          else Effects(events[..|events| - 1]))
  }

  /** The event of one start URL: its crawl task and the trace of executing it. */
  function Seed(fetch: Url -> string, parse: string -> seq<Url>, url: Url, depth: nat): Event
  {
    var task := Worker.CrawlTask(url, depth);
    Crawl(task, Worker.Execute(fetch, parse, task))
  }

  /** The events of the start URLs, one after another. */
  function Seeds(fetch: Url -> string, parse: string -> seq<Url>, urls: seq<Url>, depth: nat): (r: seq<Event>)
    ensures |r| == |urls|
    ensures forall i :: 0 <= i < |urls| ==> r[i] == Seed(fetch, parse, urls[i], depth)
  {
    if urls == [] then []
    else Seeds(fetch, parse, urls[..|urls| - 1], depth) + [Seed(fetch, parse, urls[|urls| - 1], depth)]
  }

  lemma SeedsSnoc(fetch: Url -> string, parse: string -> seq<Url>, urls: seq<Url>, i: nat, depth: nat)
    requires i < |urls|
    ensures Seeds(fetch, parse, urls[..i + 1], depth) == Seeds(fetch, parse, urls[..i], depth) + [Seed(fetch, parse, urls[i], depth)]
  {
  }

  /** One more event adds its trace, if it is a crawl, at the end. */
  lemma EffectsSnoc(events: seq<Event>, e: Event)
    ensures Effects(events + [e]) == Effects(events) + (if e.Crawl? then e.trace else [])
  {
    assert (events + [e])[..|events|] == events;
  }

  /** A login adds no collaborator call. */
  lemma EffectsAfterLogin(config: LoginConfig, events: seq<Event>)
    ensures Effects([Login(config)] + events) == Effects(events)
    decreases |events|
  {
    if events != [] {
      var n := |events| - 1;
      assert ([Login(config)] + events)[..n + 1] == [Login(config)] + events[..n];
      EffectsAfterLogin(config, events[..n]);
    } else {
      assert [Login(config)] + events == [] + [Login(config)];
    }
  }

  /** The calls made by the start URLs' crawls are those of executing the URLs one after another. */
  lemma {:induction false} EffectsOfSeeds(fetch: Url -> string, parse: string -> seq<Url>, urls: seq<Url>, depth: nat)
    ensures Effects(Seeds(fetch, parse, urls, depth)) == Worker.ExecuteAll(fetch, parse, urls, depth)
    decreases |urls|
  {
    if urls != [] {
      var n := |urls| - 1;
      var prefix := Seeds(fetch, parse, urls[..n], depth);
      var last := Seed(fetch, parse, urls[n], depth);
      EffectsOfSeeds(fetch, parse, urls[..n], depth);
      EffectsSnoc(prefix, last);
      Worker.ExecuteAllAppend(fetch, parse, urls[..n], [urls[n]], depth);
      Worker.ExecuteAllSingle(fetch, parse, urls[n], depth);
      assert urls[..n] + [urls[n]] == urls;
    }
  }

  /** An optional login followed by the start URLs' crawls makes the calls of the crawls alone. */
  lemma LoginThenSeeds(login: seq<Event>, fetch: Url -> string, parse: string -> seq<Url>, urls: seq<Url>, depth: nat)
    requires login == [] || (|login| == 1 && login[0].Login?)
    ensures Effects(login + Seeds(fetch, parse, urls, depth)) == Worker.ExecuteAll(fetch, parse, urls, depth)
  {
    var seeds := Seeds(fetch, parse, urls, depth);
    EffectsOfSeeds(fetch, parse, urls, depth);
    if login == [] {
      assert login + seeds == seeds;
    } else {
      assert login == [Login(login[0].loginConfig)];
      EffectsAfterLogin(login[0].loginConfig, seeds);
    }
  }

  class Crawler {
    const config: Config
    const fetcher: Fetcher
    const authenticator: Option<Authenticator>
    var aspects: seq<Aspect>

    /** `Crawler::new`: an authenticator exactly when login is configured, and no aspects. */
    constructor (config: Config)
      ensures this.config == config
      ensures authenticator.Some? <==> config.login.Some?
      ensures config.login.Some? ==> authenticator == Some(Authenticator(config.login.value))
      ensures fetcher == Fetcher(config.proxy)
      ensures aspects == []
    {
      this.config := config;
      this.fetcher := Fetcher(config.proxy);
      this.authenticator := if config.login.Some? then Some(Authenticator(config.login.value)) else None;
      this.aspects := [];
    }

    /** `Crawler::add_aspect`: one more aspect at the end, the others untouched. */
    method AddAspect(aspect: Aspect)
      modifies this`aspects
      ensures aspects == old(aspects) + [aspect]
    {
      aspects := aspects + [aspect];
    }

    /**
     * `Crawler::run`: login first when an authenticator exists, then one crawl per start
     * URL, in configuration order, each at `maxDepth`; the collaborator calls of the whole
     * run are those of the start URLs executed one after another.
     */
    method Run(fetch: Url -> string, parse: string -> seq<Url>) returns (events: seq<Event>)
      ensures events == (if authenticator.Some? then [Login(authenticator.value.loginConfig)] else [])
                        + Seeds(fetch, parse, config.startUrls, config.maxDepth)
      ensures Effects(events) == Worker.ExecuteAll(fetch, parse, config.startUrls, config.maxDepth)
    {
      var login: seq<Event> := [];
      if authenticator.Some? {
        login := [Login(authenticator.value.loginConfig)];
      }
      var crawls: seq<Event> := [];
      var urls := config.startUrls;
      var i := 0;
      while i < |urls|
        invariant 0 <= i <= |urls|
        invariant crawls == Seeds(fetch, parse, urls[..i], config.maxDepth)
      {
        SeedsSnoc(fetch, parse, urls, i, config.maxDepth);
        crawls := crawls + [Seed(fetch, parse, urls[i], config.maxDepth)];
        i := i + 1;
      }
      assert urls[..i] == urls;
      events := login + crawls;
      LoginThenSeeds(login, fetch, parse, urls, config.maxDepth);
    }
  }
}
