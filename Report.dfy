/** src/bronchiolitis_package/report.py: the report object that the
    pipeline fills section by section and finally turns into one HTML page
    (and, through pdfkit, a PDF). The page is built from string templates;
    the figure of a section is a resized copy of an image whose name is
    derived from the image's path. */
module Report {
  import opened PyBase

  /** The page break written after a section. */
  const BR: string := "<div style=\"display:block; clear:both; page-break-after:always;\"></div>"

  /** The width every figure is resized to. */
  const ImgsBaseWidth: nat := 1000

  // ---------------------------------------------------------------------------
  // Parameters
  // ---------------------------------------------------------------------------

  /** One entry of `experiment_params`: a dict with the keys "title", "desc"
      and "value". */
  datatype Param = Param(title: string, desc: string, value: string)

  const ParamsHeader: string := "<h3>Parámetros:</h3>"
  const NoParams: string := "<p>---</p>"

  /** The fixed text of a parameter's block, around its three fields. */
  const BlockOpen: string := "\n                <p>"
  const BlockTitleToDesc: string := ":</p>\n                <ul><li>"
  const BlockDescToValue: string := ": "
  const BlockClose: string := "</li></ul>\n            "

  /** The block written for one parameter. */
  function ParamBlock(p: Param): string {
    BlockOpen + p.title + BlockTitleToDesc + p.desc + BlockDescToValue + p.value + BlockClose
  }

  /** The strings of a list's elements, one after the other. */
  function ConcatMap<T>(xs: seq<T>, f: T -> string): string
    decreases |xs|
  {
    if xs == [] then "" else ConcatMap(xs[..|xs| - 1], f) + f(xs[|xs| - 1])
  }

  /** The blocks of all parameters, in order. */
  function Blocks(ps: seq<Param>): string {
    ConcatMap(ps, ParamBlock)
  }

  /** What `get_html_params` returns for a list of parameters. */
  function HtmlParams(ps: seq<Param>): (html: string)
    ensures |ParamsHeader| <= |html| && html[..|ParamsHeader|] == ParamsHeader
  {
    (if ps == [] then ParamsHeader + NoParams else ParamsHeader) + Blocks(ps)
  }

  /** Three fields in a fixed frame sit at offsets fixed by the frame and
      the lengths of the fields before them. */
  lemma Fields(a: string, x: string, b: string, y: string, c: string, z: string, d: string)
    ensures var f := a + x + b + y + c + z + d;
            var oy := |a| + |x| + |b|;
            var oz := oy + |y| + |c|;
            && |f| == oz + |z| + |d|
            && f[|a|..|a| + |x|] == x
            && f[oy..oy + |y|] == y
            && f[oz..oz + |z|] == z
  {
    var f := a + x + b + y + c + z + d;
    var oy := |a| + |x| + |b|;
    var oz := oy + |y| + |c|;
    assert forall k :: 0 <= k < |x| ==> f[|a| + k] == x[k];
    SliceAt(f, |a|, x);
    assert forall k :: 0 <= k < |y| ==> f[oy + k] == y[k];
    SliceAt(f, oy, y);
    assert forall k :: 0 <= k < |z| ==> f[oz + k] == z[k];
    SliceAt(f, oz, z);
  }

  /** A parameter's block holds its title, then its description, then its
      value, each as given. */
  lemma ParamBlockFields(p: Param)
    ensures var b := ParamBlock(p);
            var d := |BlockOpen| + |p.title| + |BlockTitleToDesc|;
            var v := d + |p.desc| + |BlockDescToValue|;
            && |b| == v + |p.value| + |BlockClose|
            && b[|BlockOpen|..|BlockOpen| + |p.title|] == p.title
            && b[d..d + |p.desc|] == p.desc
            && b[v..v + |p.value|] == p.value
  {
    Fields(BlockOpen, p.title, BlockTitleToDesc, p.desc, BlockDescToValue, p.value, BlockClose);
  }

  /** The strings of two lists one after the other are the strings of the
      concatenated list: one piece per element, in the list's order. */
  lemma {:induction false} ConcatMapAppend<T>(a: seq<T>, b: seq<T>, f: T -> string)
    ensures ConcatMap(a + b, f) == ConcatMap(a, f) + ConcatMap(b, f)
    decreases |b|
  {
    if b == [] {
      assert a + b == a;
    } else {
      var n := |b| - 1;
      assert (a + b)[..|a + b| - 1] == a + b[..n];
      assert (a + b)[|a + b| - 1] == b[n];
      ConcatMapAppend(a, b[..n], f);
    }
  }

  /** When every piece starts with `c`, so does the whole of a non-empty
      list's pieces. */
  lemma {:induction false} ConcatMapStartsWith<T>(xs: seq<T>, f: T -> string, c: char)
    requires xs != []
    requires forall i :: 0 <= i < |xs| ==> |f(xs[i])| > 0 && f(xs[i])[0] == c
    ensures |ConcatMap(xs, f)| > 0 && ConcatMap(xs, f)[0] == c
    decreases |xs|
  {
    if |xs| > 1 {
      var init := xs[..|xs| - 1];
      assert forall i :: 0 <= i < |init| ==> init[i] == xs[i];
      ConcatMapStartsWith(init, f, c);
    }
  }

  /** The placeholder `<p>---</p>` follows the heading exactly when there
      are no parameters. */
  lemma NoParamsMarker(ps: seq<Param>)
    ensures var html := HtmlParams(ps);
            ps == [] <==> (|ParamsHeader + NoParams| <= |html| && html[..|ParamsHeader + NoParams|] == ParamsHeader + NoParams)
  {
    var html := HtmlParams(ps);
    var n := |ParamsHeader|;
    if ps == [] {
      assert html == ParamsHeader + NoParams;
    } else {
      assert forall i :: 0 <= i < |ps| ==> |ParamBlock(ps[i])| > 0 && ParamBlock(ps[i])[0] == '\n';
      ConcatMapStartsWith(ps, ParamBlock, '\n');
      assert html == ParamsHeader + Blocks(ps);
      assert html[n] == '\n';
      assert (ParamsHeader + NoParams)[n] == '<';
    }
  }

  // ---------------------------------------------------------------------------
  // Figures
  // ---------------------------------------------------------------------------

  /** Where the segment ending at `n` starts: just after the last '/'
      before `n`, or at 0. */
  function SegmentStart(path: string, n: nat): (k: nat)
    requires n <= |path|
    ensures k <= n
    ensures forall i :: k <= i < n ==> path[i] != '/'
    ensures k > 0 ==> path[k - 1] == '/'
    decreases n
  {
    if n == 0 || path[n - 1] == '/' then n else SegmentStart(path, n - 1)
  }

  /** `path.split('/')[-1]`: what follows the last '/'. */
  function LastSegment(path: string): (name: string)
    ensures |name| <= |path| && name == path[|path| - |name|..]
    ensures forall i :: 0 <= i < |name| ==> name[i] != '/'
    ensures |name| < |path| ==> path[|path| - |name| - 1] == '/'
  {
    path[SegmentStart(path, |path|)..]
  }

  /** `s.rstrip(chars)`: the trailing characters that belong to `chars` are
      removed, however many. */
  function RStrip(s: string, chars: set<char>): (r: string)
    ensures |r| <= |s| && r == s[..|r|]
    ensures r == [] || r[|r| - 1] !in chars
    ensures forall i :: |r| <= i < |s| ==> s[i] in chars
    decreases |s|
  {
    if s != [] && s[|s| - 1] in chars then RStrip(s[..|s| - 1], chars) else s
  }

  /** `rstrip('.png')` strips a set of characters, not a suffix. */
  const PngChars: set<char> := {'.', 'p', 'n', 'g'}

  /** `image_path.split('/')[-1].rstrip('.png')`. */
  function BaseName(imagePath: string): (name: string)
    ensures forall i :: 0 <= i < |name| ==> name[i] != '/'
    ensures name == [] || name[|name| - 1] !in PngChars
  {
    StrippedSegment(imagePath, PngChars)
  }

  /** The last segment with the trailing characters of `chars` removed. */
  function StrippedSegment(path: string, chars: set<char>): (name: string)
    ensures forall i :: 0 <= i < |name| ==> name[i] != '/'
    ensures name == [] || name[|name| - 1] !in chars
  {
    var segment := LastSegment(path);
    var name := RStrip(segment, chars);
    PrefixKeepsNoSlash(segment, name);
    name
  }

  lemma PrefixKeepsNoSlash(s: string, prefix: string)
    requires |prefix| <= |s| && prefix == s[..|prefix|]
    requires forall i :: 0 <= i < |s| ==> s[i] != '/'
    ensures forall i :: 0 <= i < |prefix| ==> prefix[i] != '/'
  {
    forall i | 0 <= i < |prefix| ensures prefix[i] != '/' {
      assert prefix[i] == s[i];
    }
  }

  /** A segment start is the position after the last '/' before `n`. */
  lemma {:induction false} SegmentStartAt(path: string, n: nat, k: nat)
    requires 0 < k <= n <= |path| && path[k - 1] == '/'
    requires forall i :: k <= i < n ==> path[i] != '/'
    ensures SegmentStart(path, n) == k
    decreases n
  {
    if n > k {
      SegmentStartAt(path, n - 1, k);
    }
  }

  /** The last segment of a path is the file name after its directory. */
  lemma LastSegmentAfterSlash(dir: string, name: string)
    requires forall i :: 0 <= i < |name| ==> name[i] != '/'
    ensures LastSegment(dir + "/" + name) == name
  {
    var path := dir + "/" + name;
    assert path[|dir|] == '/';
    forall i | |dir| + 1 <= i < |path| ensures path[i] != '/' {
      assert path[i] == name[i - |dir| - 1];
    }
    SegmentStartAt(path, |path|, |dir| + 1);
    assert path[|dir| + 1..] == name;
  }

  lemma PingStripped()
    ensures RStrip("ping.png", PngChars) == "pi"
  {
    assert "ping.png"[..7] == "ping.pn";
    assert "ping.pn"[..6] == "ping.p";
    assert "ping.p"[..5] == "ping.";
    assert "ping."[..4] == "ping";
    assert "ping"[..3] == "pin";
    assert "pin"[..2] == "pi";
  }

  /** The strip eats into the name when it ends with one of the letters. */
  lemma BaseNameOfPing()
    ensures BaseName("figs/ping.png") == "pi"
  {
    assert "figs/ping.png" == "figs" + "/" + "ping.png";
    LastSegmentAfterSlash("figs", "ping.png");
    PingStripped();
  }

  /** The name of the resized copy: base name, timestamp, `.png`. It ends in
      `.png`, and with a timestamp free of '/' it names a file of the working
      directory, whatever directory the image came from. */
  function ResizedPath(imagePath: string, timestamp: string): (path: string)
    ensures |path| >= 4 && path[|path| - 4..] == ".png"
    ensures (forall i :: 0 <= i < |timestamp| ==> timestamp[i] != '/') ==>
              forall i :: 0 <= i < |path| ==> path[i] != '/'
  {
    var name := BaseName(imagePath);
    EndsWith(name + "_" + timestamp, ".png");
    JoinKeepsNoSlash(name, timestamp);
    name + "_" + timestamp + ".png"
  }

  lemma EndsWith(s: string, suffix: string)
    ensures |suffix| <= |s + suffix| && (s + suffix)[|s + suffix| - |suffix|..] == suffix
  {
  }

  /** Joining a name without '/' to a timestamp adds no '/' unless the
      timestamp has one. */
  lemma JoinKeepsNoSlash(name: string, timestamp: string)
    requires forall i :: 0 <= i < |name| ==> name[i] != '/'
    ensures (forall i :: 0 <= i < |timestamp| ==> timestamp[i] != '/') ==>
              var path := name + "_" + timestamp + ".png";
              forall i :: 0 <= i < |path| ==> path[i] != '/'
  {
    if forall i :: 0 <= i < |timestamp| ==> timestamp[i] != '/' {
      var path := name + "_" + timestamp + ".png";
      forall i | 0 <= i < |path| ensures path[i] != '/' {
        if i < |name| {
          assert path[i] == name[i];
        } else if |name| < i < |name| + 1 + |timestamp| {
          assert path[i] == timestamp[i - |name| - 1];
        }
      }
    }
  }

  /** The fixed text of a figure, around its source, width and height. */
  const FigOpen: string := "\n            <figure align=\"center\">\n                <img align=\"center\" src=\""
  const FigSrcToWidth: string := "\" width=\""
  const FigWidthToHeight: string := "\" height=\""
  const FigClose: string := "\">\n            </figure>\n        "

  /** `__get_fig_template`: an HTML figure for an image. It holds the
      source, the width and the height as given, in that order. */
  function FigTemplate(figSrc: string, width: nat, height: nat): (f: string)
    ensures var w := |FigOpen| + |figSrc| + |FigSrcToWidth|;
            var h := w + |NatToString(width)| + |FigWidthToHeight|;
            && |f| == h + |NatToString(height)| + |FigClose|
            && f[|FigOpen|..|FigOpen| + |figSrc|] == figSrc
            && f[w..w + |NatToString(width)|] == NatToString(width)
            && f[h..h + |NatToString(height)|] == NatToString(height)
  {
    Fields(FigOpen, figSrc, FigSrcToWidth, NatToString(width), FigWidthToHeight, NatToString(height), FigClose);
    FigOpen + figSrc + FigSrcToWidth + NatToString(width) + FigWidthToHeight + NatToString(height) + FigClose
  }

  // ---------------------------------------------------------------------------
  // Sections
  // ---------------------------------------------------------------------------

  /** `if figure:` — None and the empty string are false. */
  predicate Truthy(figure: Option<string>) {
    figure.Some? && figure.value != ""
  }

  /** `s` starts with `a`, then `b`, then `c`. */
  predicate Leads(s: string, a: string, b: string, c: string) {
    && |a| + |b| + |c| <= |s|
    && s[..|a|] == a
    && s[|a|..|a| + |b|] == b
    && s[|a| + |b|..|a| + |b| + |c|] == c
  }

  /** The text `add_section` appends. The resized image's height and the
      timestamp in its name come from PIL and the clock, and are given. A
      section starts with its text, then holds the figure of the resized
      image when there is one, then the caption, and ends with the page
      break when one is asked for. */
  function Section(text: string, figure: Option<string>, caption: string, finishWithPageBreak: bool,
                   timestamp: string, hsize: nat): (s: string)
    ensures Truthy(figure) ==> Leads(s, text, FigTemplate(ResizedPath(figure.value, timestamp), ImgsBaseWidth, hsize), caption)
    ensures !Truthy(figure) ==> Leads(s, text, "", caption)
    ensures finishWithPageBreak ==> |BR| <= |s| && s[|s| - |BR|..] == BR
  {
    var figureHtml := if Truthy(figure) then FigTemplate(ResizedPath(figure.value, timestamp), ImgsBaseWidth, hsize) else "";
    var pageBreak := if finishWithPageBreak then BR else "";
    Parts4(text, figureHtml, caption, pageBreak);
    text + figureHtml + caption + pageBreak
  }

  /** Without a figure a section is its text, its caption and, when asked
      for, the page break. */
  lemma SectionWithoutFigure(text: string, figure: Option<string>, caption: string, finishWithPageBreak: bool,
                             timestamp: string, hsize: nat)
    requires !Truthy(figure)
    ensures Section(text, figure, caption, finishWithPageBreak, timestamp, hsize) ==
            if finishWithPageBreak then text + caption + BR else text + caption
  {
    assert text + "" == text && text + caption + "" == text + caption;
  }

  /** With a figure a section is its text, the figure template of the
      resized image at the base width, its caption and, when asked for, the
      page break. */
  lemma SectionWithFigure(text: string, figure: Option<string>, caption: string, finishWithPageBreak: bool,
                          timestamp: string, hsize: nat)
    requires Truthy(figure)
    ensures Section(text, figure, caption, finishWithPageBreak, timestamp, hsize) ==
            text + FigTemplate(ResizedPath(figure.value, timestamp), ImgsBaseWidth, hsize) + caption +
            (if finishWithPageBreak then BR else "")
  {
    var f := FigTemplate(ResizedPath(figure.value, timestamp), ImgsBaseWidth, hsize);
    assert text + f + caption + "" == text + f + caption;
  }

  /** The text `add_section` builds step by step is the section. */
  lemma SectionAppended(text: string, figure: Option<string>, caption: string, finishWithPageBreak: bool,
                        timestamp: string, hsize: nat, built: string)
    requires built == ((if Truthy(figure) then text + FigTemplate(ResizedPath(figure.value, timestamp), ImgsBaseWidth, hsize) else text)
                       + caption + (if finishWithPageBreak then BR else ""))
    ensures built == Section(text, figure, caption, finishWithPageBreak, timestamp, hsize)
  {
    assert text + "" == text;
  }

  /** The four parts of a concatenation of four, at their offsets. */
  lemma Parts4(a: string, b: string, c: string, d: string)
    ensures Leads(a + b + c + d, a, b, c)
    ensures (a + b + c + d)[|a + b + c + d| - |d|..] == d
  {
    assert (a + b + c + d)[..|a|] == a;
    assert (a + b + c + d)[|a|..|a| + |b|] == b;
    assert (a + b + c + d)[|a| + |b|..|a| + |b| + |c|] == c;
    assert (a + b + c + d)[|a + b + c|..] == d;
  }

  // ---------------------------------------------------------------------------
  // The page
  // ---------------------------------------------------------------------------

  const ReportOpen: string :=
    "\n" +
    "            <!DOCTYPE html>\n" +
    "                <html>\n" +
    "                    <head>\n" +
    "                        <meta charset='utf-8'>\n" +
    "                        <title>"

  const TitleToHeading: string :=
    "</title>\n" +
    "                        <style>\n" +
    "                            h1 {\n" +
    "                                font-family: Arial;\n" +
    "                                font-size: 300%;\n" +
    "                            }\n" +
    "                            h2 {\n" +
    "                                font-family: Arial;\n" +
    "                                font-size: 200%;\n" +
    "                            }\n" +
    "                            @page {\n" +
    "                                size: 17in 20in;\n" +
    "                                margin: 27mm 16mm 27mm 16mm;\n" +
    "                            }\n" +
    "                        </style>                       \n" +
    "                    </head>\n" +
    "                    <body>\n" +
    "                        <div style=\"margin-top:150px;\">\n" +
    "                            <h1 align=\"center\">"

  const HeadingToSubtitle: string :=
    "</h1>\n" +
    "                            <h2 align=\"center\">"

  const SubtitleToParams: string :=
    "</h2>\n" +
    "                            <br>\n" +
    "                            <br>\n" +
    "                            "

  const ParamsToContent: string :=
    "\n" +
    "                        </div>\n" +
    "                        <div style=\"display:block; clear:both; page-break-after:always;\"></div>\n" +
    "                        "

  const ReportClose: string :=
    "\n" +
    "                    </body>\n" +
    "                </html>\n" +
    "            "

  /** The fixed text of a page, around the title, subtitle, parameters and
      sections. */
  datatype PageTemplate = PageTemplate(open: string, titleToHeading: string, headingToSubtitle: string,
                                       subtitleToParams: string, paramsToContent: string, close: string)

  /** The template of `get_report_text`. */
  const ReportTemplate: PageTemplate :=
    PageTemplate(ReportOpen, TitleToHeading, HeadingToSubtitle, SubtitleToParams, ParamsToContent, ReportClose)

  /** The page up to where the sections begin: the title twice (window and
      heading), the subtitle and the parameters. */
  function Head(t: PageTemplate, title: string, subtitle: string, params: string): string {
    t.open + title + t.titleToHeading + title + t.headingToSubtitle + subtitle + t.subtitleToParams + params + t.paramsToContent
  }

  /** A page: the head, the sections, the closing tags. */
  function Page(t: PageTemplate, title: string, subtitle: string, params: string, content: string): string {
    Head(t, title, subtitle, params) + content + t.close
  }

  /** `r` is `h`, then `c`, then `e`, each where the one before it ends. */
  predicate Laid(r: string, h: string, c: string, e: string) {
    && |r| == |h| + |c| + |e|
    && r[..|h|] == h
    && r[|h|..|h| + |c|] == c
    && r[|h| + |c|..] == e
  }

  /** `get_report_text`: the head, then the sections exactly as added, then
      the closing tags. */
  function ReportText(title: string, subtitle: string, params: string, content: string): (r: string)
    ensures Laid(r, Head(ReportTemplate, title, subtitle, params), content, ReportTemplate.close)
  {
    PageLayout(ReportTemplate, title, subtitle, params, content);
    Page(ReportTemplate, title, subtitle, params, content)
  }

  /** Where a part of the head begins, given what comes before it. */
  function SubtitleAt(t: PageTemplate, title: string): nat {
    |t.open| + |title| + |t.titleToHeading| + |title| + |t.headingToSubtitle|
  }

  function ParamsAt(t: PageTemplate, title: string, subtitle: string): nat {
    SubtitleAt(t, title) + |subtitle| + |t.subtitleToParams|
  }

  /** The head holds the opening tags, then the title, the subtitle and the
      parameters, each where the ones before it end. */
  lemma HeadLayout(t: PageTemplate, title: string, subtitle: string, params: string)
    ensures var h := Head(t, title, subtitle, params);
            && |h| == ParamsAt(t, title, subtitle) + |params| + |t.paramsToContent|
            && h[..|t.open|] == t.open
            && h[|t.open|..|t.open| + |title|] == title
            && h[SubtitleAt(t, title)..SubtitleAt(t, title) + |subtitle|] == subtitle
            && h[ParamsAt(t, title, subtitle)..ParamsAt(t, title, subtitle) + |params|] == params
  {
    OpenInHead(t.open, title, t.titleToHeading, t.headingToSubtitle, subtitle, t.subtitleToParams, params, t.paramsToContent);
    TitleInHead(t.open, title, t.titleToHeading, t.headingToSubtitle, subtitle, t.subtitleToParams, params, t.paramsToContent);
    SubtitleInHead(t.open, title, t.titleToHeading, t.headingToSubtitle, subtitle, t.subtitleToParams, params, t.paramsToContent);
    ParamsInHead(t.open, title, t.titleToHeading, t.headingToSubtitle, subtitle, t.subtitleToParams, params, t.paramsToContent);
  }

  /** The sections come right after the head, and the closing tags after
      them: nothing but the head comes before the content. */
  lemma PageLayout(t: PageTemplate, title: string, subtitle: string, params: string, content: string)
    ensures var h := Head(t, title, subtitle, params);
            var r := Page(t, title, subtitle, params, content);
            && |r| == |h| + |content| + |t.close|
            && r[..|h|] == h
            && r[|h|..|h| + |content|] == content
            && r[|h| + |content|..] == t.close
  {
    Slice(Head(t, title, subtitle, params), content, t.close);
  }

  /** A string agrees with `x` from `off` on. */
  lemma SliceAt(r: string, off: nat, x: string)
    requires off + |x| <= |r|
    requires forall k :: 0 <= k < |x| ==> r[off + k] == x[k]
    ensures r[off..off + |x|] == x
  {
  }

  /** The four parts of a head, for any frame text. */
  lemma OpenInHead(a: string, title: string, b: string, c: string, subtitle: string, d: string, params: string, e: string)
    ensures (a + title + b + title + c + subtitle + d + params + e)[..|a|] == a
  {
    var h := a + title + b + title + c + subtitle + d + params + e;
    assert forall k :: 0 <= k < |a| ==> h[k] == a[k];
    SliceAt(h, 0, a);
  }

  lemma TitleInHead(a: string, title: string, b: string, c: string, subtitle: string, d: string, params: string, e: string)
    ensures (a + title + b + title + c + subtitle + d + params + e)[|a|..|a| + |title|] == title
  {
    var h := a + title + b + title + c + subtitle + d + params + e;
    assert forall k :: 0 <= k < |title| ==> h[|a| + k] == title[k];
    SliceAt(h, |a|, title);
  }

  lemma SubtitleInHead(a: string, title: string, b: string, c: string, subtitle: string, d: string, params: string, e: string)
    ensures var os := |a| + |title| + |b| + |title| + |c|;
            (a + title + b + title + c + subtitle + d + params + e)[os..os + |subtitle|] == subtitle
  {
    var h := a + title + b + title + c + subtitle + d + params + e;
    var os := |a| + |title| + |b| + |title| + |c|;
    assert forall k :: 0 <= k < |subtitle| ==> h[os + k] == subtitle[k];
    SliceAt(h, os, subtitle);
  }

  lemma ParamsInHead(a: string, title: string, b: string, c: string, subtitle: string, d: string, params: string, e: string)
    ensures var op := |a| + |title| + |b| + |title| + |c| + |subtitle| + |d|;
            (a + title + b + title + c + subtitle + d + params + e)[op..op + |params|] == params
  {
    var h := a + title + b + title + c + subtitle + d + params + e;
    var op := |a| + |title| + |b| + |title| + |c| + |subtitle| + |d|;
    assert forall k :: 0 <= k < |params| ==> h[op + k] == params[k];
    SliceAt(h, op, params);
  }

  lemma Assoc(a: string, b: string, c: string)
    ensures a + b + c == a + (b + c)
  {
  }

  /** Three strings put together keep each where it was put. */
  lemma Slice(a: string, b: string, c: string)
    ensures (a + b + c)[..|a|] == a
    ensures (a + b + c)[|a|..|a| + |b|] == b
    ensures (a + b + c)[|a| + |b|..] == c
  {
  }

  // ---------------------------------------------------------------------------
  // The report object
  // ---------------------------------------------------------------------------

  class Report {
    var title: string
    var subtitle: string
    var experimentParams: seq<Param>
    /** The resized images to remove once the PDF is written. */
    var tmpFiles: seq<string>
    /** The sections so far. */
    var content: string
    /** The parameters, rendered once at construction. */
    var params: string

    /** A report with no section yet. */
    constructor (title: string, subtitle: string, experimentParams: seq<Param>)
      ensures this.title == title && this.subtitle == subtitle && this.experimentParams == experimentParams
      ensures tmpFiles == [] && content == ""
      ensures params == HtmlParams(experimentParams)
    {
      this.title := title;
      this.subtitle := subtitle;
      this.experimentParams := experimentParams;
      tmpFiles := [];
      content := "";
      new;
      params := GetHtmlParams();
    }

    /** `get_html_params`: the heading, the placeholder when there are no
        parameters, then one block per parameter. */
    method GetHtmlParams() returns (buildParams: string)
      ensures buildParams == HtmlParams(experimentParams)
    {
      buildParams := ParamsHeader;
      if |experimentParams| == 0 {
        buildParams := buildParams + NoParams;
      }
      ghost var start := buildParams;
      assert start + Blocks(experimentParams[..0]) == start;
      for i := 0 to |experimentParams|
        invariant buildParams == start + Blocks(experimentParams[..i])
      {
        assert experimentParams[..i + 1][..i] == experimentParams[..i];
        Assoc(start, Blocks(experimentParams[..i]), ParamBlock(experimentParams[i]));
        buildParams := buildParams + ParamBlock(experimentParams[i]);
      }
      assert experimentParams[..|experimentParams|] == experimentParams;
    }

    /** `add_section`: the section is appended to the content, and a
        figure's resized copy, named under the working directory `cwd`, is
        remembered for removal. Nothing else changes. */
    method AddSection(text: string, figure: Option<string>, caption: string, finishWithPageBreak: bool,
                      cwd: string, timestamp: string, hsize: nat)
      modifies this
      ensures content == old(content) + Section(text, figure, caption, finishWithPageBreak, timestamp, hsize)
      ensures Truthy(figure) ==> tmpFiles == old(tmpFiles) + [cwd + "/" + ResizedPath(figure.value, timestamp)]
      ensures !Truthy(figure) ==> tmpFiles == old(tmpFiles)
      ensures title == old(title) && subtitle == old(subtitle) && experimentParams == old(experimentParams)
      ensures params == old(params)
    {
      var reportContent := text;
      if figure.Some? && figure.value != "" {
        var resizedImageDir := ResizedPath(figure.value, timestamp);
        reportContent := reportContent + FigTemplate(resizedImageDir, ImgsBaseWidth, hsize);
        tmpFiles := tmpFiles + [cwd + "/" + resizedImageDir];
      }
      reportContent := reportContent + caption;
      if finishWithPageBreak {
        reportContent := reportContent + BR;
      } else {
        assert reportContent + "" == reportContent;
      }
      SectionAppended(text, figure, caption, finishWithPageBreak, timestamp, hsize, reportContent);
      content := content + reportContent;
    }

    /** `get_report_text` of the report as it stands: the sections added so
        far sit right after the head built from the title, the subtitle and
        the parameters, and the closing tags follow them. */
    function GetReportText(): (r: string)
      reads this
      ensures Laid(r, Head(ReportTemplate, title, subtitle, params), content, ReportTemplate.close)
    {
      ReportText(title, subtitle, params, content)
    }
  }
}
