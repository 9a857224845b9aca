/**
 * The text handling of the build script (utils/build/build.py): source files are
 * concatenated, the version is written after the About link, and each output
 * gets a one-line header naming the version (the HTML page also loses any
 * DOCTYPE it had, so that the header's DOCTYPE comes first), written to
 * <name>.htm, <name>.css and <name>.js.
 *
 * Reading and writing files, the compressors (external Java programs), git and
 * the svg inlining are not part of this model; file contents and the version
 * are parameters.
 */
module Build {
  import opened Strings

  const Doctype := "<!DOCTYPE HTML>"
  const ProjectUrl := "https://github.com/mpetroff/pannellum"
  /** The text the version is written after. */
  const AboutLink := "\"_blank\">Pannellum</a>"

  /** The file contents one after another, with nothing between them ("".join). */
  function Concat(parts: seq<string>): string
    decreases |parts|
  {
    if parts == [] then "" else Concat(parts[..|parts| - 1]) + parts[|parts| - 1]
  }

  /** Concatenating two lists of files is concatenating their concatenations. */
  lemma {:induction false} ConcatAppend(a: seq<string>, b: seq<string>)
    ensures Concat(a + b) == Concat(a) + Concat(b)
    decreases |b|
  {
    if b == [] {
      assert a + b == a;
    } else {
      var init, last := b[..|b| - 1], b[|b| - 1];
      var ab := a + b;
      assert ab[..|ab| - 1] == a + init && ab[|ab| - 1] == last;
      ConcatAppend(a, init);
      assert Concat(ab) == Concat(a) + Concat(init) + last;
    }
  }

  /** merge: the contents of the files, read in list order, appended to a buffer and joined. */
  method Merge(contents: seq<string>) returns (text: string)
    ensures text == Concat(contents)
    ensures |contents| == 1 ==> text == contents[0]
  {
    var buffer: seq<string> := [];
    var i := 0;
    while i < |contents|
      invariant 0 <= i <= |contents| && buffer == contents[..i]
    {
      buffer := buffer + [contents[i]];
      i := i + 1;
    }
    assert buffer == contents;
    text := Concat(buffer);
    if |contents| == 1 {
      assert contents[..0] == [];
    }
  }

  /** The HTML header: a DOCTYPE, then a comment naming the version. */
  function HtmlHeader(version: string): string
  {
    Doctype + "\n<!-- Pannellum " + version + ", " + ProjectUrl + " -->\n"
  }

  function CssHeader(version: string): string
  {
    "/* Pannellum " + version + ", " + ProjectUrl + " */\n"
  }

  function JsHeader(version: string): string
  {
    "// Pannellum " + version + ", " + ProjectUrl + "\n"
  }

  /** addHeaderHTML: every DOCTYPE removed (str.replace), then the header put in front. */
  function AddHeaderHTML(text: string, version: string): (r: string)
    ensures HtmlHeader(version) <= r
  {
    HtmlHeader(version) + ReplaceAll(text, Doctype, "")
  }

  /** addHeaderCSS: the header in front of the unchanged text. */
  function AddHeaderCSS(text: string, version: string): (r: string)
    ensures CssHeader(version) <= r && r[|CssHeader(version)|..] == text
  {
    CssHeader(version) + text
  }

  /** addHeaderJS: the header in front of the unchanged text. */
  function AddHeaderJS(text: string, version: string): (r: string)
    ensures JsHeader(version) <= r && r[|JsHeader(version)|..] == text
  {
    JsHeader(version) + text
  }

  /** A page that starts with its DOCTYPE gets the header's DOCTYPE in its place, not a second one. */
  lemma DoctypeReplaced(body: string, version: string)
    requires NoOccurrenceBefore(body, Doctype, |body|)
    ensures AddHeaderHTML(Doctype + body, version) == HtmlHeader(version) + body
  {
    assert [] + Doctype + body == Doctype + body;
    ReplaceAllAt([], Doctype, body, "");
    ReplaceAllAbsent(body, Doctype, "");
  }

  /** A text without a DOCTYPE keeps all of its characters after the header. */
  lemma HtmlWithoutDoctype(text: string, version: string)
    requires NoOccurrenceBefore(text, Doctype, |text|)
    ensures AddHeaderHTML(text, version) == HtmlHeader(version) + text
  {
    ReplaceAllAbsent(text, Doctype, "");
  }

  /** The version written after every About link in the merged script. */
  function InsertVersion(js: string, version: string): string
  {
    ReplaceAll(js, AboutLink, AboutLink + " " + version)
  }

  /** With one About link, the version follows it and nothing else changes. */
  lemma VersionAfterLink(before: string, after: string, version: string)
    requires NoOccurrenceBefore(before + AboutLink + after, AboutLink, |before|)
    requires NoOccurrenceBefore(after, AboutLink, |after|)
    ensures InsertVersion(before + AboutLink + after, version) == before + AboutLink + " " + version + after
  {
    ReplaceAllAt(before, AboutLink, after, AboutLink + " " + version);
    ReplaceAllAbsent(after, AboutLink, AboutLink + " " + version);
  }

  /** The three files build writes for a name, in the order it writes them: page, style sheet, script. */
  function OutputNames(filename: string): (r: seq<string>)
    ensures |r| == 3 && forall k :: 0 <= k < 3 ==> filename <= r[k]
    ensures r[0] != r[1] && r[1] != r[2] && r[0] != r[2]
  {
    var names := [filename + ".htm", filename + ".css", filename + ".js"];
    assert names[0][|filename| + 1] == 'h' && names[1][|filename| + 1] == 'c';
    assert names[1][|filename| + 1] == 'c' && names[2][|filename| + 1] == 'j';
    names
  }

  /**
   * What build writes, given the compressed page, style sheet and script: each
   * under its name, each starting with the header that names the version.
   */
  function Outputs(filename: string, version: string, html: string, css: string, js: string): (r: seq<(string, string)>)
    ensures |r| == 3 && forall k :: 0 <= k < 3 ==> r[k].0 == OutputNames(filename)[k]
    ensures HtmlHeader(version) <= r[0].1 && CssHeader(version) <= r[1].1 && JsHeader(version) <= r[2].1
    ensures r[1].1[|CssHeader(version)|..] == css && r[2].1[|JsHeader(version)|..] == js
  {
    var names := OutputNames(filename);
    [(names[0], AddHeaderHTML(html, version)), (names[1], AddHeaderCSS(css, version)), (names[2], AddHeaderJS(js, version))]
  }
}
