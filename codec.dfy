/** The parser and serializer libraries the ripper calls (css-tree's `parse`
    and `generate`, node-html-parser's parse and `toString`). Their
    internals are not part of this model: each is a given total function,
    passed to the pipelines as a parameter. */
module Parsers {
  import opened Base
  import opened Css
  import opened Html

  datatype Codec = Codec(
    parseCss: string -> Stylesheet,
    generateCss: Stylesheet -> string,
    parseHtml: string -> HNode,
    printHtml: HNode -> string)

  /** Every CSS file parsed, in order. */
  function ParseSheets(cssFiles: seq<File>, codec: Codec): (r: seq<Stylesheet>)
    ensures |r| == |cssFiles|
    ensures forall i :: 0 <= i < |cssFiles| ==> r[i] == codec.parseCss(cssFiles[i].data)
  {
    if cssFiles == [] then []
    else ParseSheets(cssFiles[..|cssFiles| - 1], codec) + [codec.parseCss(cssFiles[|cssFiles| - 1].data)]
  }
}
