/** Greedy word wrapping, the rule both text wrappers of the installer's
  * interfaces follow: words are packed onto a line, separated by single
  * spaces, until the next word would push the line past the width. */
module TextWrap {
  import opened Strs

  /** The lines of a wrapping: each group of words joined by single
    * spaces. */
  function Lines(groups: seq<seq<string>>): (lines: seq<string>)
    ensures |lines| == |groups|
    ensures forall k :: 0 <= k < |groups| ==> lines[k] == Join(groups[k], " ")
  {
    seq(|groups|, k requires 0 <= k < |groups| => Join(groups[k], " "))
  }

  /** `groups` is the greedy wrapping of `words` at `width`: together the
    * groups are the words in order, none is empty, a line fits the width
    * unless it is one over-long word, and the first word of each line
    * would not have fitted at the end of the line before it. */
  ghost predicate GreedyWrap(words: seq<string>, groups: seq<seq<string>>, width: int)
  {
    Concat(groups) == words
    && (forall k :: 0 <= k < |groups| ==> groups[k] != [])
    && (forall k :: 0 <= k < |groups| ==> |Join(groups[k], " ")| <= width || |groups[k]| == 1)
    && (forall k :: 0 <= k < |groups| - 1 ==> |Join(groups[k], " ")| + 1 + |groups[k + 1][0]| > width)
  }

  /** The next word fits on the current (last) line: it joins that line. */
  lemma ExtendLine(words: seq<string>, groups: seq<seq<string>>, current: seq<string>, word: string, width: int)
    requires GreedyWrap(words, groups + [current], width)
    requires |Join(current, " ")| + 1 + |word| <= width
    ensures GreedyWrap(words + [word], groups + [current + [word]], width)
  {
    var before, after := groups + [current], groups + [current + [word]];
    ConcatAppend(groups, current);
    ConcatAppend(groups, current + [word]);
    var c := Concat(groups);
    assert c + (current + [word]) == (c + current) + [word];
    assert before[|groups|] == current && after[|groups|] == current + [word];
    assert before[..|groups|] == groups && after[..|groups|] == groups;
    JoinSpaceStep(current, word);
    ReplaceLast(before, after, width);
  }

  /** Lines with a longer last line: the greedy conditions carry over when
    * the new last line still fits. */
  lemma ReplaceLast(before: seq<seq<string>>, after: seq<seq<string>>, width: int)
    requires |before| == |after| > 0 && before[..|before| - 1] == after[..|after| - 1]
    requires forall k :: 0 <= k < |before| ==> before[k] != []
    requires forall k :: 0 <= k < |before| ==> |Join(before[k], " ")| <= width || |before[k]| == 1
    requires forall k :: 0 <= k < |before| - 1 ==> |Join(before[k], " ")| + 1 + |before[k + 1][0]| > width
    requires after[|after| - 1] != [] && after[|after| - 1][0] == before[|before| - 1][0]
    requires |Join(after[|after| - 1], " ")| <= width
    ensures forall k :: 0 <= k < |after| ==> after[k] != []
    ensures forall k :: 0 <= k < |after| ==> |Join(after[k], " ")| <= width || |after[k]| == 1
    ensures forall k :: 0 <= k < |after| - 1 ==> |Join(after[k], " ")| + 1 + |after[k + 1][0]| > width
  {
    var n := |before| - 1;
    forall k | 0 <= k < n ensures after[k] == before[k] {
      assert after[k] == after[..n][k];
    }
  }

  /** The next word does not fit on the current line: the line is closed
    * and the word starts a new one. */
  lemma StartLine(words: seq<string>, groups: seq<seq<string>>, current: seq<string>, word: string, width: int)
    requires GreedyWrap(words, groups + [current], width)
    requires |Join(current, " ")| + 1 + |word| > width
    ensures GreedyWrap(words + [word], groups + [current] + [[word]], width)
  {
    ConcatAppend(groups + [current], [word]);
    assert (groups + [current])[|groups|] == current;
    AppendLine(groups + [current], groups + [current] + [[word]], width);
  }

  /** Lines with one more line after them: the greedy conditions carry over
    * when the new line's first word would not fit on the old last line. */
  lemma AppendLine(before: seq<seq<string>>, after: seq<seq<string>>, width: int)
    requires |before| > 0 && |after| == |before| + 1 && after[..|before|] == before
    requires forall k :: 0 <= k < |before| ==> before[k] != []
    requires forall k :: 0 <= k < |before| ==> |Join(before[k], " ")| <= width || |before[k]| == 1
    requires forall k :: 0 <= k < |before| - 1 ==> |Join(before[k], " ")| + 1 + |before[k + 1][0]| > width
    requires |after[|before|]| == 1
    requires |Join(before[|before| - 1], " ")| + 1 + |after[|before|][0]| > width
    ensures forall k :: 0 <= k < |after| ==> after[k] != []
    ensures forall k :: 0 <= k < |after| ==> |Join(after[k], " ")| <= width || |after[k]| == 1
    ensures forall k :: 0 <= k < |after| - 1 ==> |Join(after[k], " ")| + 1 + |after[k + 1][0]| > width
  {
    forall k | 0 <= k < |before| ensures after[k] == before[k] {
      assert after[k] == after[..|before|][k];
    }
  }

  /** One word is wrapped as one line. */
  lemma FirstLine(word: string, width: int)
    ensures GreedyWrap([word], [] + [[word]], width)
  {
    assert [] + [[word]] == [[word]];
    assert Concat([[word]]) == [word] + Concat([[word]][1..]);
  }

  /** The lines of a greedy wrapping of words come back from splitting
    * their join at line breaks, none of them is empty, and the text does
    * not end with a line break. */
  lemma WrappedLines(words: seq<string>, groups: seq<seq<string>>, width: int)
    requires GreedyWrap(words, groups, width) && |words| > 0
    requires forall k :: 0 <= k < |words| ==> IsWord(words[k])
    ensures var lines := Lines(groups);
            var r := Join(lines, "\n");
            Split(r, "\n") == lines
            && (forall k :: 0 <= k < |lines| ==> lines[k] != "")
            && r != "" && r[|r| - 1] != '\n'
  {
    var lines := Lines(groups);
    ConcatNonEmpty(groups);
    forall k | 0 <= k < |lines| ensures '\n' !in lines[k] && lines[k] != "" {
      CleanLine(words, groups, width, k);
    }
    SplitJoinChar(lines, '\n');
    EndsInLine(lines, "\n");
  }

  /** Each line of a wrapping of words is non-empty and has no line
    * break. */
  lemma CleanLine(words: seq<string>, groups: seq<seq<string>>, width: int, k: nat)
    requires GreedyWrap(words, groups, width) && k < |groups|
    requires forall i :: 0 <= i < |words| ==> IsWord(words[i])
    ensures '\n' !in Lines(groups)[k] && Lines(groups)[k] != ""
  {
    var g := groups[k];
    forall j | 0 <= j < |g| ensures '\n' !in g[j] {
      ConcatMember(groups, k, j);
      WordLacksNewline(g[j]);
    }
    JoinLacksChar(g, " ", '\n');
    JoinFirstPart(g, " ");
    ConcatMember(groups, k, 0);
  }

  /** A join whose last part is a non-empty line without a break does
    * not end with a break. */
  lemma EndsInLine(lines: seq<string>, sep: string)
    requires |lines| >= 1
    requires var last := lines[|lines| - 1]; last != "" && '\n' !in last
    ensures var r := Join(lines, sep); r != "" && r[|r| - 1] != '\n'
  {
    var r := Join(lines, sep);
    JoinLastPiece(lines, sep);
    var last := lines[|lines| - 1];
    assert r[|r| - 1] == last[|last| - 1];
  }

  /** A join starts with its first part. */
  lemma JoinFirstPart(parts: seq<string>, sep: string)
    requires |parts| >= 1
    ensures HasPrefix(Join(parts, sep), parts[0])
  {
  }

  /** Non-empty groups that concatenate to nothing are no groups. */
  lemma ConcatNonEmpty<T>(groups: seq<seq<T>>)
    requires forall k :: 0 <= k < |groups| ==> groups[k] != []
    ensures |groups| > 0 ==> |Concat(groups)| > 0
  {
  }

  /** Element `j` of group `k` is an element of the concatenation. */
  lemma {:induction false} ConcatMember<T>(groups: seq<seq<T>>, k: nat, j: nat)
    requires k < |groups| && j < |groups[k]|
    ensures groups[k][j] in Concat(groups)
  {
    if k > 0 {
      ConcatMember(groups[1..], k - 1, j);
    }
  }

  /** The length of a space join grows with each part added. */
  lemma JoinSpaceStep(ws: seq<string>, x: string)
    requires |ws| >= 1
    ensures |Join(ws + [x], " ")| == |Join(ws, " ")| + 1 + |x|
  {
    JoinAppend(ws, x, " ");
  }

  /** A leading run of a group joins to no more than the whole group. */
  lemma {:induction false} JoinPrefixShorter(g: seq<string>, j: nat)
    requires 1 <= j <= |g|
    ensures |Join(g[..j], " ")| <= |Join(g, " ")|
    decreases |g| - j
  {
    if j < |g| {
      assert g[..j + 1] == g[..j] + [g[j]];
      JoinSpaceStep(g[..j], g[j]);
      JoinPrefixShorter(g, j + 1);
    } else {
      assert g[..j] == g;
    }
  }

  /** The rest of a greedy wrapping wraps the rest of the words. */
  lemma GreedyTail(words: seq<string>, groups: seq<seq<string>>, width: int)
    requires GreedyWrap(words, groups, width) && |groups| > 0
    ensures |groups[0]| <= |words| && words[..|groups[0]|] == groups[0]
    ensures GreedyWrap(words[|groups[0]|..], groups[1..], width)
  {
    assert Concat(groups) == groups[0] + Concat(groups[1..]);
  }

  /** The first line of a greedy wrapping takes as many words as any other
    * greedy wrapping's first line. */
  lemma FirstGroupNotShorter(words: seq<string>, g1: seq<seq<string>>, g2: seq<seq<string>>, width: int)
    requires GreedyWrap(words, g1, width) && GreedyWrap(words, g2, width)
    requires |g1| > 0 && |g2| > 0
    ensures |g1[0]| >= |g2[0]|
  {
    GreedyTail(words, g1, width);
    GreedyTail(words, g2, width);
    var a, b := |g1[0]|, |g2[0]|;
    if a < b {
      var tail := words[a..];
      assert |tail| > 0;
      if |g1| == 1 {
        assert false;
      }
      ConcatNonEmpty(g1[1..]);
      assert Concat(g1[1..]) == g1[1] + Concat(g1[2..]);
      assert g1[1][0] == words[a];
      assert |Join(g1[0], " ")| + 1 + |words[a]| > width;
      assert g2[0][..a] == g1[0] && g2[0][a] == words[a];
      assert g2[0][..a + 1] == g1[0] + [words[a]];
      JoinSpaceStep(g1[0], words[a]);
      JoinPrefixShorter(g2[0], a + 1);
      assert false;
    }
  }

  /** A greedy wrapping is unique: the width and the words decide every
    * line. */
  lemma {:induction false} GreedyWrapUnique(words: seq<string>, g1: seq<seq<string>>, g2: seq<seq<string>>, width: int)
    requires GreedyWrap(words, g1, width) && GreedyWrap(words, g2, width)
    ensures g1 == g2
    decreases |words|
  {
    if |g1| == 0 || |g2| == 0 {
      ConcatNonEmpty(g1);
      ConcatNonEmpty(g2);
    } else {
      FirstGroupNotShorter(words, g1, g2, width);
      FirstGroupNotShorter(words, g2, g1, width);
      GreedyTail(words, g1, width);
      GreedyTail(words, g2, width);
      GreedyWrapUnique(words[|g1[0]|..], g1[1..], g2[1..], width);
      assert g1 == [g1[0]] + g1[1..] && g2 == [g2[0]] + g2[1..];
    }
  }
}
