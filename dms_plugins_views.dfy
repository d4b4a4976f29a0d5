/** The text wrapper of the plugin browser's detail view. */
module DmsPluginsViews {
  import opened Strs
  import opened TextWrap

  /** `wrapText`: a text without words is returned as it is; otherwise its
    * words are wrapped greedily at `width` and the lines joined with line
    * breaks. Lengths count characters, one per byte of the source's
    * strings. */
  method WrapText(text: string, width: int) returns (r: string, ghost groups: seq<seq<string>>)
    ensures Fields(text) == [] ==> r == text
    ensures Fields(text) != [] ==> GreedyWrap(Fields(text), groups, width) && r == Join(Lines(groups), "\n")
  {
    var words := Fields(text);
    if |words| == 0 {
      return text, [];
    }
    var lines: seq<string> := [];
    var currentLine := words[0];
    ghost var current: seq<string> := [words[0]];
    groups := [];
    FirstLine(words[0], width);
    assert words[..1] == [words[0]];
    var i := 1;
    while i < |words|
      invariant 1 <= i <= |words|
      invariant currentLine == Join(current, " ")
      invariant lines == Lines(groups)
      invariant GreedyWrap(words[..i], groups + [current], width)
    {
      var word := words[i];
      assert words[..i + 1] == words[..i] + [word];
      if |currentLine| + 1 + |word| <= width {
        ExtendLine(words[..i], groups, current, word, width);
        assert (groups + [current])[|groups|] == current;
        JoinAppend(current, word, " ");
        currentLine := currentLine + " " + word;
        current := current + [word];
      } else {
        StartLine(words[..i], groups, current, word, width);
        assert Lines(groups + [current]) == lines + [currentLine];
        lines := lines + [currentLine];
        groups := groups + [current];
        currentLine := word;
        current := [word];
      }
      i := i + 1;
    }
    assert Lines(groups + [current]) == lines + [currentLine];
    lines := lines + [currentLine];
    groups := groups + [current];
    assert words[..i] == words;
    r := Join(lines, "\n");
  }
}
