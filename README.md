# rust-spider core, modelled in Dafny

This project models the crawling core of the rust-spider web crawler and proves properties of it. It covers five parts:

- `TaskManager` (src/worker/task.rs). A breadth-first crawl over a FIFO frontier. A visited set is claimed before each fetch, and a progress counter is persisted after each new page. The visited set can be saved to a text file and loaded back.
- `Worker::execute` (src/worker/worker.rs). A depth-bounded recursive crawl with no deduplication.
- `Crawler` (src/worker/crawler.rs). It builds its collaborators from the configuration, keeps a list of aspects, and runs an optional login followed by one `execute` per start URL.
- The log panel (src/utils/logging.rs). A buffer of the last 20 log lines, shown joined by newlines, and the `level: message` line format.
- The output path of `Writer::write` (src/writer/markdown_writer.rs).

Files and modules:

- `wrappers.dfy`: `Option`.
- `text.dfy`: the Rust standard-library text operations the code relies on. These are `join`, one `writeln!` per element, and `BufRead::lines`.
- `task.dfy`: class `Task.TaskManager`. Its `Run` is proved equal to the ghost function `Drain`, which repeats `Step` until the queue is empty. The lemmas about `Drain` carry the properties of a whole run.
- `worker.dfy`: `Execute` returns the trace of collaborator calls (`Fetch`, `Write`) as a sequence.
- `crawler.dfy`: class `Crawler.Crawler`. `Run` returns the sequence of login and crawl events.
- `logging.dfy`: class `Logging.Panel`, the receiving side of the log channel.
- `markdown_writer.dfy`: the path computation.

The page fetch of `TaskManager::run` is a parameter `fetch: Url -> seq<Url>`. `Run`'s termination and result are proved for a `fetch` whose URLs lie in a finite set closed under it. That set is a ghost parameter, `universe`. It is a sufficient condition, not a necessary one: the stub run of `Task.StubEndsWhenLinksLoaded` ends without one. The stub `fetch` in task.rs (two fresh links per page) is modelled too. `Task.StubHasNoFiniteUniverse` proves that no such set exists for it. `Task.StubRunNeverEnds` proves that, from the state `new` leaves (nothing visited, at least one start URL), the loop with the stub never empties its queue. From other states it can end: `Task.StubEndsWhenLinksLoaded` shows a seed whose two links were already loaded by `load_state`, whose turn leaves the queue empty.

The code is followed where the documentation of the crawler differs. The documentation describes a threaded worker pool, shared visited sets and cancellation; the code does not have them. src/main.rs calls `TaskManager` functions (`create_task`, `list_tasks`, a `run` with an argument) that task.rs does not define. task.rs is modelled as written.

## Model

| member | source | states |
|---|---|---|
| Task.Unvisited | src/worker/task.rs:69-73 | The links the inner loop keeps are never visited and are no more than the links fetched. |
| Task.TaskIdOf | src/worker/task.rs:115-117 | The task id is the timestamp truncated to its low 32 bits, and equals the timestamp when that fits in `u32`. |
| Task.TaskIdRepeats | src/worker/task.rs:115-117 | Ids repeat: timestamps 2^32 seconds apart give the same id, so an id does not identify a task. |
| Task.UnvisitedMembers | src/worker/task.rs:69-73 | The links pushed after a fetch are exactly the fetched links not in `visited`. |
| Task.EnqueueUnvisited | src/worker/task.rs:69-73 | The inner loop leaves the queue unchanged at the front and appends the unvisited links at the back, in fetch order. |
| Task.Step | src/worker/task.rs:58-77 | One turn of the loop adds exactly the popped URL to `visited`. |
| Task.StepLinksQueued | src/worker/task.rs:63-73 | After a new URL's turn, each of its links is visited or queued. |
| Task.StepSpec | src/worker/task.rs:58-77 | One turn of the loop pops the front URL and keeps the rest of the queue in order. An already-visited URL is dropped with nothing else changed. A new URL is added to `visited` before its links are filtered. Every fetched link not in `visited` is appended, and only such links are. Progress rises by one and the URL is logged as fetched. |
| Task.StepCounts | src/worker/task.rs:63-75 | In one turn, `visited` gains exactly the popped URL. Progress and the fetch log change only when the URL was new, by one and by that URL. |
| Task.StepWithin | src/worker/task.rs:58-73 | A turn keeps the queue inside a universe closed under `fetch`. Claiming a new URL shrinks the unvisited part of the universe. |
| Task.Drain | src/worker/task.rs:58-78 | The loop of `run` ends with an empty queue when all URLs lie in a finite universe closed under `fetch`. |
| Task.DrainStep | src/worker/task.rs:58-78 | One turn leaves the final state of the loop unchanged, stays in the universe, and lowers the termination measure. |
| Task.DrainVisitsQueue | src/worker/task.rs:58-64 | During `run`, `visited` only grows, and every URL that was queued ends up visited. |
| Task.DrainFetchedGrows | src/worker/task.rs:63-75 | Earlier fetches are kept in order. Progress rises by exactly the number of URLs fetched. |
| Task.DrainFetchesNew | src/worker/task.rs:63-67 | The URLs fetched during `run` are exactly the URLs it adds to `visited`. |
| Task.DrainFetchesOnce | src/worker/task.rs:63-67 | No URL is fetched twice during `run`. |
| Task.DrainProgress | src/worker/task.rs:63-76 | Final progress minus initial progress equals the number of URLs newly inserted into `visited`. |
| Task.DrainLinksVisited | src/worker/task.rs:67-73 | Every link of every page fetched during `run` is visited when `run` ends. |
| Task.NewUrlLinksVisited | src/worker/task.rs:63-73 | The links of a URL fetched in the first turn are visited when the loop ends. |
| Task.StubFetch | src/worker/task.rs:84-86 | The stub fetch returns two links, each longer than the page URL. |
| Task.StubHasNoFiniteUniverse | src/worker/task.rs:84-86 | No non-empty finite set of URLs is closed under the stub fetch, so no `universe` makes `Run`'s contract apply to it. |
| Task.Turns | src/worker/task.rs:58-77 | Any number of turns of the loop, stopping early when the queue empties, only adds to `visited`. |
| Task.StubNeverDrains | src/worker/task.rs:58-86 | With the stub fetch, a state whose queue holds an unvisited URL longer than every visited URL keeps a non-empty queue after any number of turns. |
| Task.StubRunNeverEnds | src/worker/task.rs:31-86 | With the stub fetch and at least one start URL, the loop of `run` started from the state `new` leaves still has a queued URL after any number of turns. |
| Task.StubEndsWhenLinksLoaded | src/worker/task.rs:58-105 | With the stub fetch, a seed whose two links are already in `visited` (as `load_state` can put them there) is fetched and leaves the queue empty. |
| Task.SaveLoadRoundTrip | src/worker/task.rs:88-105 | Lines written by `save_state`, read back by `load_state`, give back exactly the visited set. The URLs must hold no newline and not end in a carriage return. |
| Task.TaskManager.constructor | src/worker/task.rs:31-53 | A new manager has nothing visited, the start URLs queued in order, status `Running` and progress 0. `ended_at` is `None`, the id comes from the clock, and that record is the one saved. |
| Task.TaskManager.Run | src/worker/task.rs:56-82 | `run` sets the status to `Running` on entry. It leaves visited set, queue, progress and fetch log equal to `Drain` of the state on entry. `ended_at` is set, the other record fields are unchanged, and the final record is the one saved. |
| Task.TaskManager.Turn | src/worker/task.rs:58-77 | One pass of the loop. It pops the front URL and stops if paused or stopped; otherwise the new state is `Step` of the old one. The other record fields are unchanged. The record is saved exactly when a new URL was fetched; otherwise the saved record stays as it was. |
| Task.TaskManager.SaveState | src/worker/task.rs:88-94 | The file lists every visited URL exactly once, one per line, in some order. |
| Task.TaskManager.LoadState | src/worker/task.rs:96-105 | Every line of the file is added to `visited` and nothing is removed. |
| Task.TaskManager.Pause | src/worker/task.rs:107-109 | Only the status changes, to `Paused`. |
| Task.TaskManager.Stop | src/worker/task.rs:111-113 | Only the status changes, to `Stopped`. |
| Text.Render | src/worker/task.rs:90-92 | The text written is empty exactly when there is no URL, and otherwise ends in a newline. |
| Text.SplitLines | src/worker/task.rs:99 | `lines` yields no more lines than the text has characters, and no line holds a newline. |
| Text.RenderSnoc | src/worker/task.rs:90-92 | Each `writeln!` appends the URL and a newline to what was written before. |
| Text.RenderRoundTrip | src/worker/task.rs:96-105 | Reading back, line by line, text written one line per element gives back the elements. Elements must hold no newline and not end in a carriage return. |
| Text.CarriageReturnIsLost | src/worker/task.rs:99 | A URL ending in a carriage return does not survive save and load. `lines` strips the `\r` before the newline. |
| Text.JoinThenNewline | src/utils/logging.rs:39 | Joining with newlines and adding a final newline is writing one line per element. |
| Worker.PairedAppend | src/worker/worker.rs:22-30 | Traces in which each fetch is followed by its write stay so when concatenated. |
| Worker.Execute | src/worker/worker.rs:17-31 | With depth 0 there is no fetch and no write. Otherwise the task's URL is fetched first. Every fetch is immediately followed by the write of that URL with the content just fetched. |
| Worker.ExecuteAll | src/worker/worker.rs:27-30 | The loop over the parsed links keeps the fetch/write pairing, and does nothing at depth 0. |
| Worker.ExecuteAllAppend | src/worker/worker.rs:27-30 | Links are executed one after another in parser order: the trace of a concatenation is the concatenation of the traces. |
| Worker.ExecuteAllSingle | src/worker/worker.rs:27-30 | A single link is one `execute` at the same depth. |
| Worker.PairedAlternates | src/worker/worker.rs:22-25 | A trace has as many writes as fetches. Fetches sit at even positions, each followed by the write of its own URL and content. |
| Worker.FetchedIffReached | src/worker/worker.rs:17-31 | A URL is fetched exactly when it is reached from the task's URL through fewer parsed-link hops than the depth. |
| Worker.FetchedIffReachedAll | src/worker/worker.rs:27-30 | A URL is fetched by the loop over the links exactly when some link reaches it in fewer hops than the depth. |
| Worker.LinkedTwiceFetchedTwice | src/worker/worker.rs:27-30 | There is no deduplication: a page linking to the same URL twice has it fetched and written twice, in preorder. |
| Crawler.Effects | src/worker/crawler.rs:39-48 | Every call made by any crawl of the run is among the run's calls. |
| Crawler.EffectsSnoc | src/worker/crawler.rs:44-47 | One more event adds its trace at the end when it is a crawl, and nothing when it is a login. |
| Crawler.LoginThenSeeds | src/worker/crawler.rs:39-48 | An optional login followed by the start URLs' crawls makes exactly the calls of executing the start URLs one after another. |
| Crawler.Seeds | src/worker/crawler.rs:44-47 | One crawl event per start URL, in configuration order. Each has that URL, `max_depth`, and the trace of executing it. |
| Crawler.EffectsAfterLogin | src/worker/crawler.rs:40-42 | Logging in makes no fetch or write. |
| Crawler.EffectsOfSeeds | src/worker/crawler.rs:44-47 | The fetches and writes of the per-seed crawls are those of executing the start URLs one after another. |
| Crawler.Crawler.constructor | src/worker/crawler.rs:18-33 | There is an authenticator exactly when login is configured, holding that login configuration. The fetcher gets the configured proxy and the aspect list is empty. |
| Crawler.Crawler.AddAspect | src/worker/crawler.rs:35-37 | Exactly one aspect is appended at the end, and the others are unchanged. |
| Crawler.Crawler.Run | src/worker/crawler.rs:39-48 | The login comes first, and only when an authenticator exists. Then one crawl runs per start URL, in order, at `max_depth`. The whole run's fetches and writes are those of executing the start URLs one after another. |
| Logging.Window | src/utils/logging.rs:31-36 | `Window(s, n)` is the last `min(|s|, n)` elements of `s`, in order; the buffer is this window of the messages received with `n` = 20. |
| Logging.Push | src/utils/logging.rs:33-36 | Handling a message keeps the buffer within 20 lines and makes the message the last line. Below capacity it only appends. At capacity it drops exactly the oldest line. |
| Logging.PushWindow | src/utils/logging.rs:31-36 | If the buffer holds the last lines received, it still does after one more message. |
| Logging.Display | src/utils/logging.rs:39 | Nothing is shown for an empty buffer; otherwise the shown text plus a newline is the lines written one per line. |
| Logging.DisplayShowsLines | src/utils/logging.rs:39 | The shown text is the buffered lines joined by newlines. When no line holds a newline or ends in `\r`, the lines can be read back from it. |
| Logging.Panel.constructor | src/utils/logging.rs:19-21 | The buffer starts empty. |
| Logging.Panel.Receive | src/utils/logging.rs:32-40 | One message updates the buffer in place, as `Push` does. The spinner then shows the buffer joined by newlines. |
| Logging.Panel.ReceiveAll | src/utils/logging.rs:31-41 | After the loop, the buffer holds the last `min(n, 20)` messages received, in arrival order. The shown text is the buffer joined by newlines. |
| Logging.Level.Name | src/utils/logging.rs:57-82 | The macros' level names are non-empty and hold no colon. |
| Logging.Entry | src/utils/logging.rs:48-50 | `log` sends the level, `": "` and the message. A level without a colon and the message can be read back from that line. |
| Logging.EntryInjective | src/utils/logging.rs:57-82 | Two log lines from the macros are equal only when their levels and messages are. |
| MarkdownWriter.ReplaceSchemeSep | src/writer/markdown_writer.rs:12 | Replacing `"://"` never lengthens the text. |
| MarkdownWriter.ReplaceSlash | src/writer/markdown_writer.rs:12 | Replacing `"/"` keeps the length, leaves no `/`, and changes only the slashes. |
| MarkdownWriter.Sanitize | src/writer/markdown_writer.rs:12 | The file name stem holds no `/` and is no longer than the URL. |
| MarkdownWriter.SchemeSepUnchanged | src/writer/markdown_writer.rs:12 | Text without a colon or without a slash is left unchanged by the `"://"` replacement. |
| MarkdownWriter.SlashFreeUnchanged | src/writer/markdown_writer.rs:12 | A URL without `/` is its own file name stem. |
| MarkdownWriter.SanitizeIdempotent | src/writer/markdown_writer.rs:12 | Sanitising twice gives the same stem as sanitising once. |
| MarkdownWriter.SchemeSepPrefix | src/writer/markdown_writer.rs:12 | A colon-free prefix passes through the `"://"` replacement unchanged, and the scan goes on after it. |
| MarkdownWriter.SchemeSepAfter | src/writer/markdown_writer.rs:12 | The `"://"` after a colon-free scheme becomes one underscore, and the replacement goes on after it. |
| MarkdownWriter.SchemeBecomesUnderscore | src/writer/markdown_writer.rs:12 | `scheme://rest` becomes `scheme_` followed by the stem of `rest`. |
| MarkdownWriter.OutputPath | src/writer/markdown_writer.rs:12 | The path starts with `output/`, holds no further `/`, ends in `.md`, and is at most 10 characters longer than the URL. |
| MarkdownWriter.Parent | src/writer/markdown_writer.rs:13 | There is a parent exactly when the path holds a `/`. It is the part before the last `/`. |
| MarkdownWriter.ParentIsOutput | src/writer/markdown_writer.rs:12-13 | The directory of every output path is `output`. |
| MarkdownWriter.PathsCollide | src/writer/markdown_writer.rs:12 | The mapping is not injective: `a/b` and `a_b` get the same path. |
| MarkdownWriter.ApplyWrite | src/writer/markdown_writer.rs:15 | After a write, the URL's path holds the content, no other path is created, and every other file is unchanged. |
| MarkdownWriter.LaterWriteOverwrites | src/writer/markdown_writer.rs:12-15 | Writing `a_b` after `a/b` replaces the first page's content: the shared path holds the second content and no longer the first. |

## Left out

- Task.TaskManager.Run: progress is an unbounded `nat`. The `u32` counter of task.rs would panic (debug build) or wrap (release build) after 2^32 pages.
- Task.TaskManager.Run: termination and the result are stated only for a `fetch` whose URLs lie in a finite universe closed under it. No such universe exists for the stub fetch (`Task.StubHasNoFiniteUniverse`). Its runs are described by `Task.Turns` instead: from the state `new` leaves they never end (`Task.StubRunNeverEnds`), while after `load_state` they can (`Task.StubEndsWhenLinksLoaded`).
- Task.TaskManager.Run: the `println!` progress line and the status check inside the loop are not observable. Nothing changes `status` while `run` executes, so that check never stops the loop.
- Task.TaskManager.SaveState: returns the file contents instead of writing a file, and does not model open or write errors. `HashSet` iteration order is unspecified; the model picks the URLs in an arbitrary order and also returns that order as `order`.
- Task.TaskManager.LoadState: takes the file contents as text. A missing file and lines that are not valid UTF-8 (skipped by `if let Ok`) are not modelled.
- `save_task_info` writes JSON with serde. The model keeps the last record saved (`persisted`), not its JSON encoding. The directory `tasks/<name>` (`get_task_dir`, `create_dir_all`) is not modelled.
- `current_timestamp` and `Utc::now` are clocks; they are parameters (`now`, `createdAt`, `endedAt`).
- Worker.Execute: `Fetcher::fetch` and `Parser::parse` are parameters. `Fetcher` (src/fetcher/mod.rs) is not part of this model. HTTP errors, the HTML parsing of `Parser::parse` and the file write of `Writer::write` are left out; the write is a `Write` effect in the trace.
- Worker.Execute: `fetch` is a pure function of the URL, so every fetch of a URL returns the same content. `Worker.Paired` (the write carries `fetch(url)`) and `Worker.Reaches` (a fixed link graph) depend on this. A real fetcher can return different pages for a URL fetched twice, which happens because `execute` does not deduplicate.
- Crawler.Crawler.Run: `Authenticator::login` posts a form over HTTP and prints a line; it is the `Login` event. Aspects are stored but never called, so their `before`/`after` hooks are not modelled. `Parser` and `Writer` are stateless and not kept as fields.
- Reading the TOML configuration (src/config/mod.rs) is not modelled; `Config` is the parsed record.
- Logging: the thread, the channel, the `Mutex`, the global `LOGGER` and the progress bar are left out. The channel is the sequence of messages it delivers. The spinner's message is the field `shown`.
- MarkdownWriter.Parent: agrees with `Path::parent` only on relative paths with exactly one `/`, neither first nor last, as every output path is. It differs elsewhere: it gives `None` for `foo.md` (Rust: `Some("")`), `Some("a/b")` for `a/b/` and `Some("a/")` for `a//b` (Rust: `"a"` for both), and `Some("")` for `/a` (Rust: `"/"`). `create_dir_all` and the file write themselves are modelled only as the map update `ApplyWrite`.
- src/main.rs (CLI dispatch, Ctrl-C handling, progress bars) and src/utils/cli.rs are not part of this model.
