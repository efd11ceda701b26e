/**
 * The log panel of src/utils/logging.rs: `log` formats an entry and sends it; the
 * receiving side keeps the last `MAX_LOG_LINES` entries and shows them joined by
 * newlines. The channel is modelled as the sequence of messages it delivers.
 */
module Logging {
  import opened Wrappers
  import Text

  /** The capacity of the log buffer. */
  const MAX_LOG_LINES: nat := 20

  /** The last `n` elements of `s`, or all of `s` when it is shorter. */
  function Window(s: seq<string>, n: nat): (r: seq<string>)
    ensures |r| == if |s| < n then |s| else n
    ensures r == s[|s| - |r|..]
  {
    if |s| <= n then s else s[|s| - n..]
  }

  /** Handling one message: drop the oldest line when the buffer is full, then append. */
  function Push(lines: seq<string>, message: string): (r: seq<string>)
    ensures |lines| <= MAX_LOG_LINES ==> |r| <= MAX_LOG_LINES
    ensures |r| > 0 && r[|r| - 1] == message
    ensures |lines| < MAX_LOG_LINES ==> |r| == |lines| + 1 && r[..|lines|] == lines
    ensures |lines| == MAX_LOG_LINES ==> |r| == MAX_LOG_LINES && r[..|r| - 1] == lines[1..]
  {
    if |lines| == MAX_LOG_LINES then lines[1..] + [message] else lines + [message]
  }

  /** A buffer holding the last lines received keeps doing so after one more message. */
  lemma PushWindow(received: seq<string>, message: string)
    ensures Push(Window(received, MAX_LOG_LINES), message) == Window(received + [message], MAX_LOG_LINES)
  {
  }

  /** The text the spinner shows: the buffered lines joined with newlines. */
  function Display(lines: seq<string>): (r: string)
    ensures lines == [] ==> r == ""
    ensures lines != [] ==> r + "\n" == Text.Render(lines)
  {
    if lines == [] then "" else Text.JoinThenNewline(lines); Text.Join(lines, "\n")
  }

  /** When no line holds a newline or ends in a carriage return, the lines can be read back from the display. */
  lemma DisplayShowsLines(lines: seq<string>)
    requires lines != []
    requires forall l :: l in lines ==> Text.LineSafe(l)
    ensures Text.SplitLines(Display(lines) + "\n") == lines
  {
    Text.JoinThenNewline(lines);
    Text.RenderRoundTrip(lines);
  }

  /** The receiving thread's state: the buffer and the message shown by the spinner. */
  class Panel {
    var lines: seq<string>
    var shown: string
    /** Every message delivered so far, oldest first. */
    ghost var received: seq<string>

    ghost predicate Valid()
      reads this
    {
      lines == Window(received, MAX_LOG_LINES)
    }

    /** `Logging::new`: an empty buffer and nothing shown. */
    constructor ()
      ensures Valid() && received == [] && lines == [] && shown == ""
    {
      lines := [];
      shown := "";
      received := [];
    }

    /** One turn of the receiving loop: update the buffer in place and show it. */
    method Receive(message: string)
      requires Valid()
      modifies this
      ensures Valid() && received == old(received) + [message]
      ensures lines == Push(old(lines), message)
      ensures shown == Display(lines)
    {
      PushWindow(received, message);
      if |lines| == MAX_LOG_LINES {
        lines := lines[1..];
      }
      lines := lines + [message];
      received := received + [message];
      shown := Display(lines);
    }

    /** The receiving loop until the channel closes: after it, the buffer holds the last lines received. */
    method ReceiveAll(messages: seq<string>)
      requires Valid()
      modifies this
      ensures Valid() && received == old(received) + messages
      ensures lines == Window(old(received) + messages, MAX_LOG_LINES)
      ensures messages != [] ==> shown == Display(lines)
      ensures messages == [] ==> shown == old(shown)
    {
      var i := 0;
      while i < |messages|
        invariant 0 <= i <= |messages|
        invariant Valid() && received == old(received) + messages[..i]
        invariant i > 0 ==> shown == Display(lines)
        invariant i == 0 ==> shown == old(shown)
      {
        Receive(messages[i]);
        assert messages[..i + 1] == messages[..i] + [messages[i]];
        i := i + 1;
      }
      assert messages[..i] == messages;
    }
  }

  /** The levels used by the `info!`, `warn!` and `error!` macros. */
  datatype Level = Info | Warn | Error
  {
    function Name(): (s: string)
      ensures ':' !in s && s != []
    {
      match this
      case Info => "INFO"
      case Warn => "WARN"
      case Error => "ERROR"
    }
  }

  /** `Logging::log`: the line sent is the level, a colon and a space, then the message. */
  function Entry(level: string, message: string): (r: string)
    ensures ':' !in level ==> ParseEntry(r) == Some((level, message))
  {
    var line := level + ": " + message;
    if ':' !in level then ParsesAtFirstColon(level, message); line else line
  }

  /** The index of the first colon of `s`, or `|s|` when there is none. */
  function ColonIndex(s: string): (k: nat)
    ensures k <= |s| && (k < |s| ==> s[k] == ':')
    ensures forall j :: 0 <= j < k ==> s[j] != ':'
  {
    if s == [] || s[0] == ':' then 0 else 1 + ColonIndex(s[1..])
  }

  /** Splits a log line at its first `": "` into level and message. */
  function ParseEntry(line: string): Option<(string, string)>
  {
    var k := ColonIndex(line);
    if k + 1 < |line| && line[k + 1] == ' ' then Some((line[..k], line[k + 2..])) else None
  }

  lemma ParsesAtFirstColon(level: string, message: string)
    requires ':' !in level
    ensures ParseEntry(level + ": " + message) == Some((level, message))
  {
    var line := level + ": " + message;
    assert line[|level|] == ':';
    var k := ColonIndex(line);
    assert k == |level|;
    assert line[..k] == level;
    assert line[k + 2..] == message;
  }

  /** Entries of the macros' levels are distinct whenever their levels or messages are. */
  lemma EntryInjective(a: Level, m: string, b: Level, n: string)
    ensures Entry(a.Name(), m) == Entry(b.Name(), n) ==> a == b && m == n
  {
    if Entry(a.Name(), m) == Entry(b.Name(), n) {
      assert ParseEntry(Entry(a.Name(), m)) == Some((a.Name(), m));
      assert ParseEntry(Entry(b.Name(), n)) == Some((b.Name(), n));
    }
  }
}
