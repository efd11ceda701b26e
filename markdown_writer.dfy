/**
 * The output path of `Writer::write` (src/writer/markdown_writer.rs): the URL with every
 * `"://"` and then every `"/"` replaced by `"_"`, under `output/`, with a `.md` suffix.
 * The file-system calls are not modelled; a write is a map update on file contents.
 */
module MarkdownWriter {
  import opened Wrappers

  /** `str::replace("://", "_")`: matches are taken left to right and do not overlap. */
  function ReplaceSchemeSep(s: string): (r: string)
    ensures |r| <= |s|
  {
    if |s| >= 3 && s[..3] == "://" then "_" + ReplaceSchemeSep(s[3..])
    else if s == [] then []
    else [s[0]] + ReplaceSchemeSep(s[1..])
  }

  /** `str::replace("/", "_")`. */
  function ReplaceSlash(s: string): (r: string)
    ensures |r| == |s| && '/' !in r
    ensures forall i :: 0 <= i < |s| ==> r[i] == (if s[i] == '/' then '_' else s[i])
  {
    if s == [] then []
    else [if s[0] == '/' then '_' else s[0]] + ReplaceSlash(s[1..])
  }

  /** The file name stem built from the URL. */
  function Sanitize(url: string): (r: string)
    ensures '/' !in r
    ensures |r| <= |url|
  {
    ReplaceSlash(ReplaceSchemeSep(url))
  }

  /** The path `write` writes to. */
  function OutputPath(url: string): (r: string)
    ensures 10 <= |r| <= |url| + 10
    ensures r[..7] == "output/" && '/' !in r[7..]
    ensures r[|r| - 3..] == ".md"
  {
    "output/" + Sanitize(url) + ".md"
  }

  /** The index of the last `'/'` of `s`, if any. */
  function LastSlash(s: string): (k: Option<nat>)
    ensures k.Some? ==> k.value < |s| && s[k.value] == '/' && '/' !in s[k.value + 1..]
    ensures k.None? ==> '/' !in s
  {
    if s == [] then None
    else if s[|s| - 1] == '/' then Some(|s| - 1)
    else
      var k := LastSlash(s[..|s| - 1]);
      assert s == s[..|s| - 1] + [s[|s| - 1]];
      k
  }

  /**
   * The part of a path before its last `/`. It agrees with `Path::parent` on relative paths
   * with exactly one `/`, neither first nor last, as every output path is.
   */
  function Parent(path: string): (r: Option<string>)
    ensures r.None? <==> '/' !in path
    ensures r.Some? ==> |r.value| < |path| && path[..|r.value|] == r.value
    ensures r.Some? ==> path[|r.value|] == '/' && '/' !in path[|r.value| + 1..]
  {
    var k := LastSlash(path);
    if k.Some? then Some(path[..k.value]) else None
  }

  /** The directory `write` creates is always `output`. */
  lemma ParentIsOutput(url: string)
    ensures Parent(OutputPath(url)) == Some("output")
  {
    var path := OutputPath(url);
    var k := LastSlash(path);
    assert path[6] == '/';
    assert path[7..] == Sanitize(url) + ".md";
    assert '/' !in path[7..];
    assert k.Some? && k.value == 6;
    assert path[..6] == "output";
  }

  /** Text without a colon or without a slash holds no `"://"` and is left as it is. */
  lemma {:induction false} SchemeSepUnchanged(s: string)
    requires ':' !in s || '/' !in s
    ensures ReplaceSchemeSep(s) == s
  {
    if s != [] {
      if |s| >= 3 {
        assert s[..3] != "://" by {
          assert s[..3][0] == s[0] && s[..3][1] == s[1];
        }
      }
      assert ':' !in s[1..] || '/' !in s[1..];
      SchemeSepUnchanged(s[1..]);
      assert [s[0]] + s[1..] == s;
    }
  }

  /** A URL with no `/` is its own file name stem. */
  lemma SlashFreeUnchanged(url: string)
    requires '/' !in url
    ensures Sanitize(url) == url
  {
    SchemeSepUnchanged(url);
  }

  /** Sanitising twice is sanitising once. */
  lemma SanitizeIdempotent(url: string)
    ensures Sanitize(Sanitize(url)) == Sanitize(url)
  {
    SlashFreeUnchanged(Sanitize(url));
  }

  lemma ReplaceSlashAppend(a: string, b: string)
    ensures ReplaceSlash(a + b) == ReplaceSlash(a) + ReplaceSlash(b)
  {
  }

  lemma SchemeSepSkip(s: string)
    requires s != [] && s[0] != ':'
    ensures ReplaceSchemeSep(s) == [s[0]] + ReplaceSchemeSep(s[1..])
  {
  }

  /** A colon-free prefix holds no `"://"` and passes through the replacement unchanged. */
  lemma {:induction false} SchemeSepPrefix(a: string, b: string)
    requires ':' !in a
    ensures ReplaceSchemeSep(a + b) == a + ReplaceSchemeSep(b)
    decreases |a|
  {
    if a != [] {
      assert ReplaceSchemeSep(a + b) == [a[0]] + ReplaceSchemeSep(a[1..] + b) by {
        SchemeSepSkip(a + b);
        assert (a + b)[1..] == a[1..] + b;
      }
      SchemeSepPrefix(a[1..], b);
      assert a == [a[0]] + a[1..];
    } else {
      assert a + b == b;
    }
  }

  /** The `"://"` after a colon-free scheme becomes one underscore, and the scan goes on after it. */
  lemma SchemeSepAfter(scheme: string, rest: string)
    requires ':' !in scheme
    ensures ReplaceSchemeSep(scheme + "://" + rest) == scheme + "_" + ReplaceSchemeSep(rest)
  {
    var s := "://" + rest;
    SchemeSepPrefix(scheme, s);
    assert s[..3] == "://" && s[3..] == rest;
    assert scheme + "://" + rest == scheme + s;
  }

  /** The separator after the scheme becomes one underscore and every later slash another. */
  lemma SchemeBecomesUnderscore(scheme: string, rest: string)
    requires ':' !in scheme && '/' !in scheme
    ensures Sanitize(scheme + "://" + rest) == scheme + "_" + Sanitize(rest)
  {
    SchemeSepAfter(scheme, rest);
    ReplaceSlashAppend(scheme + "_", ReplaceSchemeSep(rest));
    ReplaceSlashAppend(scheme, "_");
    assert ReplaceSlash(scheme) == scheme;
  }

  /** Different URLs can share a path: `a/b` and `a_b` are written to the same file. */
  lemma PathsCollide()
    ensures "a/b" != "a_b" && OutputPath("a/b") == OutputPath("a_b")
  {
    assert "a/b"[1] != "a_b"[1];
    SchemeSepUnchanged("a/b");
    assert ReplaceSlash("a/b") == "a_b";
    SlashFreeUnchanged("a_b");
  }

  /** The files after a write: the path of the URL now holds the content. */
  function ApplyWrite(files: map<string, string>, url: string, content: string): (r: map<string, string>)
    ensures OutputPath(url) in r && r[OutputPath(url)] == content
    ensures forall p :: p in files && p != OutputPath(url) ==> p in r && r[p] == files[p]
    ensures r.Keys == files.Keys + {OutputPath(url)}
  {
    files[OutputPath(url) := content]
  }

  /** Writing `a_b` after `a/b` overwrites the first page: its content is gone from the output. */
  lemma LaterWriteOverwrites(files: map<string, string>, first: string, second: string)
    requires first != second
    ensures var after := ApplyWrite(ApplyWrite(files, "a/b", first), "a_b", second);
      after[OutputPath("a/b")] == second && after[OutputPath("a/b")] != first
  {
    PathsCollide();
  }
}
