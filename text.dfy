/**
 * The Rust standard-library text operations the crawler relies on:
 * `[String]::join`, one `writeln!` per element, and `BufRead::lines`.
 */
module Text {

  /** The elements of `lines` with `sep` between consecutive ones. */
  function Join(lines: seq<string>, sep: string): string
  {
    if lines == [] then ""
    else if |lines| == 1 then lines[0]
    else lines[0] + sep + Join(lines[1..], sep)
  }

  /** Each element followed by a newline, as a loop of `writeln!(file, "{}", x)` writes them. */
  function Render(lines: seq<string>): (r: string)
    ensures r == [] <==> lines == []
    ensures r != [] ==> r[|r| - 1] == '\n'
  {
    if lines == [] then "" else lines[0] + "\n" + Render(lines[1..])
  }

  /** Index of the first newline of `s`, or `|s|` when there is none. */
  function NewlineIndex(s: string): (k: nat)
    ensures k <= |s|
    ensures k < |s| ==> s[k] == '\n'
    ensures forall j :: 0 <= j < k ==> s[j] != '\n'
  {
    if s == [] then 0 else if s[0] == '\n' then 0 else 1 + NewlineIndex(s[1..])
  }

  /** A line as `BufRead::lines` returns it once its `'\n'` is removed: one `'\r'` before it goes too. */
  function StripCr(line: string): string
  {
    if |line| > 0 && line[|line| - 1] == '\r' then line[..|line| - 1] else line
  }

  /**
   * The lines `BufRead::lines` yields for `text`: split at each `'\n'`; a line that
   * ended in `"\r\n"` loses the `'\r'`; a last segment without a newline is a line
   * only when it is not empty (and keeps any `'\r'` it ends with).
   */
  function SplitLines(text: string): (r: seq<string>)
    ensures |r| <= |text|
    ensures forall i :: 0 <= i < |r| ==> '\n' !in r[i]
    decreases |text|
  {
    if text == [] then []
    else
      var k := NewlineIndex(text);
      if k == |text| then [text]
      else [StripCr(text[..k])] + SplitLines(text[k + 1..])
  }

  /** A string that survives one line of `writeln!` followed by `BufRead::lines` unchanged. */
  predicate LineSafe(s: string)
  {
    '\n' !in s && (|s| == 0 || s[|s| - 1] != '\r')
  }

  lemma {:induction false} RenderSnoc(lines: seq<string>, x: string)
    ensures Render(lines + [x]) == Render(lines) + x + "\n"
  {
    if lines == [] {
      assert lines + [x] == [x];
    } else {
      assert (lines + [x])[1..] == lines[1..] + [x];
      RenderSnoc(lines[1..], x);
    }
  }

  lemma NewlineIndexAfter(a: string, b: string)
    requires '\n' !in a
    ensures NewlineIndex(a + "\n" + b) == |a|
  {
    var s := a + "\n" + b;
    var k := NewlineIndex(s);
    assert s[|a|] == '\n';
  }

  /** Reading back what was rendered gives the same lines, in order. */
  lemma {:induction false} RenderRoundTrip(lines: seq<string>)
    requires forall l :: l in lines ==> LineSafe(l)
    ensures SplitLines(Render(lines)) == lines
  {
    if lines != [] {
      var rest := Render(lines[1..]);
      var text := lines[0] + "\n" + rest;
      assert Render(lines) == text;
      assert LineSafe(lines[0]);
      NewlineIndexAfter(lines[0], rest);
      assert text[..|lines[0]|] == lines[0];
      assert text[|lines[0]| + 1..] == rest;
      RenderRoundTrip(lines[1..]);
      assert lines == [lines[0]] + lines[1..];
    }
  }

  /** A line ending in a carriage return does not survive the round trip. */
  lemma CarriageReturnIsLost()
    ensures SplitLines(Render(["a\r"])) == ["a"]
  {
    var text := Render(["a\r"]);
    assert text == "a\r\n";
    assert NewlineIndex(text) == 2 by { NewlineIndexAfter("a\r", ""); }
    assert text[..2] == "a\r";
    assert StripCr("a\r") == "a";
    assert text[3..] == "";
    assert SplitLines(text) == [StripCr(text[..2])] + SplitLines(text[3..]);
  }

  /** The joined text with a final newline is the rendered text. */
  lemma {:induction false} JoinThenNewline(lines: seq<string>)
    requires lines != []
    ensures Join(lines, "\n") + "\n" == Render(lines)
  {
    if |lines| > 1 {
      JoinThenNewline(lines[1..]);
    }
  }
}
