/** The terminal theme writers of the dank16 palette generator: the same
  * sixteen colours written out in the formats of Kitty, Foot, Alacritty
  * and Ghostty. Each writer walks a fixed table and appends one line per
  * entry to a string builder. */
module Dank16Terminals {
  import opened Common
  import opened Strs

  /** A colour slot of a theme: the name the terminal knows it by and its
    * index in the palette. */
  datatype Slot = Slot(name: string, index: nat)

  /** Kitty's sixteen slots. */
  const KittyColors: seq<Slot> := [
    Slot("color0", 0), Slot("color1", 1), Slot("color2", 2), Slot("color3", 3),
    Slot("color4", 4), Slot("color5", 5), Slot("color6", 6), Slot("color7", 7),
    Slot("color8", 8), Slot("color9", 9), Slot("color10", 10), Slot("color11", 11),
    Slot("color12", 12), Slot("color13", 13), Slot("color14", 14), Slot("color15", 15)]

  /** Foot's sixteen slots: eight regular colours, then their bright
    * forms. */
  const FootColors: seq<Slot> := [
    Slot("regular0", 0), Slot("regular1", 1), Slot("regular2", 2), Slot("regular3", 3),
    Slot("regular4", 4), Slot("regular5", 5), Slot("regular6", 6), Slot("regular7", 7),
    Slot("bright0", 8), Slot("bright1", 9), Slot("bright2", 10), Slot("bright3", 11),
    Slot("bright4", 12), Slot("bright5", 13), Slot("bright6", 14), Slot("bright7", 15)]

  /** Kitty's slot `k` holds colour `k`. */
  lemma KittyIndexes()
    ensures |KittyColors| == 16 && forall k :: 0 <= k < 16 ==> KittyColors[k].index == k
  {
  }

  /** Kitty's slot `k` is named `color<k>`. */
  lemma KittyNames()
    ensures forall k :: 0 <= k < 16 ==> KittyColors[k].name == "color" + NatToString(k)
  {
    KittyNamesOneDigit();
    KittyNamesTwoDigits();
  }

  lemma KittyNamesOneDigit()
    ensures forall k :: 0 <= k < 10 ==> KittyColors[k].name == "color" + NatToString(k)
  {
  }

  lemma KittyNamesTwoDigits()
    ensures forall k :: 10 <= k < 16 ==> KittyColors[k].name == "color" + NatToString(k)
  {
    assert NatToString(10) == "10" && NatToString(11) == "11" && NatToString(12) == "12";
    assert NatToString(13) == "13" && NatToString(14) == "14" && NatToString(15) == "15";
  }

  /** Foot's slot `k` holds colour `k`. */
  lemma FootIndexes()
    ensures |FootColors| == 16 && forall k :: 0 <= k < 16 ==> FootColors[k].index == k
  {
  }

  /** Foot's slot `k` is `regular<k>` for the first eight colours and
    * `bright<k - 8>` for the other eight. */
  lemma FootNames()
    ensures forall k :: 0 <= k < 8 ==> FootColors[k].name == "regular" + NatToString(k)
    ensures forall k :: 0 <= k < 8 ==> FootColors[k + 8].name == "bright" + NatToString(k)
  {
  }

  // ---------------------------------------------------------------------
  // Kitty

  /** Kitty's line for a slot: the name, three spaces, the colour. */
  function KittyLine(c: Slot, colors: seq<string>): string
    requires c.index < |colors|
  {
    c.name + "   " + colors[c.index]
  }

  /** The sixteen lines of a Kitty theme, in table order. */
  function KittyLines(colors: seq<string>): (r: seq<string>)
    requires |colors| >= 16
    ensures |r| == 16 && forall k :: 0 <= k < 16 ==> r[k] == KittyLine(KittyColors[k], colors)
  {
    KittyIndexes();
    seq(16, k requires 0 <= k < 16 => KittyLine(KittyColors[k], colors))
  }

  /** Line `k` of a Kitty theme names `color<k>` and gives colour `k`. */
  lemma KittyLinesNamed(colors: seq<string>)
    requires |colors| >= 16
    ensures forall k :: 0 <= k < 16 ==> KittyLines(colors)[k] == "color" + NatToString(k) + "   " + colors[k]
  {
    KittyIndexes();
    KittyNames();
  }

  /** `GenerateKittyTheme`. The first sixteen colours are read; fewer is a
    * caller error (the source indexes past the end). */
  method GenerateKittyTheme(colors: seq<string>) returns (r: string)
    requires |colors| >= 16
    ensures r == Terminated(KittyLines(colors))
  {
    KittyIndexes();
    var lines := KittyLines(colors);
    var result := "";
    var i := 0;
    while i < |KittyColors|
      invariant 0 <= i <= 16
      invariant result == Terminated(lines[..i])
    {
      var kc := KittyColors[i];
      assert lines[..i + 1][..i] == lines[..i];
      result := result + kc.name + "   " + colors[kc.index] + "\n";
      i := i + 1;
    }
    assert lines[..16] == lines;
    r := result;
  }

  // ---------------------------------------------------------------------
  // Foot

  /** Foot's value for a colour: the colour without one leading '#'. */
  function FootValue(color: string): (r: string)
    ensures HasPrefix(color, "#") ==> "#" + r == color
    ensures !HasPrefix(color, "#") ==> r == color
  {
    TrimPrefix(color, "#")
  }

  /** The sixteen lines of a Foot theme, in table order. */
  function FootLines(colors: seq<string>): (r: seq<string>)
    requires |colors| >= 16
    ensures |r| == 16
    ensures forall k :: 0 <= k < 16 ==> r[k] == FootColors[k].name + "=" + FootValue(colors[FootColors[k].index])
  {
    FootIndexes();
    seq(16, k requires 0 <= k < 16 => FootColors[k].name + "=" + FootValue(colors[FootColors[k].index]))
  }

  /** Foot's lines name the eight regular colours and then the eight
    * bright ones, each with its colour stripped of one leading '#'. */
  lemma FootLinesNamed(colors: seq<string>)
    requires |colors| >= 16
    ensures forall k :: 0 <= k < 8 ==> FootLines(colors)[k] == "regular" + NatToString(k) + "=" + FootValue(colors[k])
    ensures forall k :: 0 <= k < 8 ==> FootLines(colors)[k + 8] == "bright" + NatToString(k) + "=" + FootValue(colors[k + 8])
  {
    FootIndexes();
    FootNames();
  }

  /** `GenerateFootTheme`. */
  method GenerateFootTheme(colors: seq<string>) returns (r: string)
    requires |colors| >= 16
    ensures r == Terminated(FootLines(colors))
  {
    FootIndexes();
    var lines := FootLines(colors);
    var result := "";
    var i := 0;
    while i < |FootColors|
      invariant 0 <= i <= 16
      invariant result == Terminated(lines[..i])
    {
      var fc := FootColors[i];
      assert lines[..i + 1][..i] == lines[..i];
      result := result + fc.name + "=" + TrimPrefix(colors[fc.index], "#") + "\n";
      i := i + 1;
    }
    assert lines[..16] == lines;
    r := result;
  }

  // ---------------------------------------------------------------------
  // Alacritty

  /** The sections of Alacritty's palette; `NoSection` is the writer's
    * state before the first header. */
  datatype Section = NoSection | Normal | Bright

  /** A section's name in its header. */
  function SectionName(s: Section): string
  {
    match s
    case NoSection => ""
    case Normal => "normal"
    case Bright => "bright"
  }

  /** An Alacritty slot: its section, its colour name, its palette index. */
  datatype SectionSlot = SectionSlot(section: Section, name: string, index: nat)

  /** The eight colour names of a section, in palette order. */
  const ColorNames: seq<string> := ["black", "red", "green", "yellow", "blue", "magenta", "cyan", "white"]

  const AlacrittyColors: seq<SectionSlot> := [
    SectionSlot(Normal, "black", 0), SectionSlot(Normal, "red", 1),
    SectionSlot(Normal, "green", 2), SectionSlot(Normal, "yellow", 3),
    SectionSlot(Normal, "blue", 4), SectionSlot(Normal, "magenta", 5),
    SectionSlot(Normal, "cyan", 6), SectionSlot(Normal, "white", 7),
    SectionSlot(Bright, "black", 8), SectionSlot(Bright, "red", 9),
    SectionSlot(Bright, "green", 10), SectionSlot(Bright, "yellow", 11),
    SectionSlot(Bright, "blue", 12), SectionSlot(Bright, "magenta", 13),
    SectionSlot(Bright, "cyan", 14), SectionSlot(Bright, "white", 15)]

  /** The section of palette entry `k`. */
  function SectionOf(k: nat): Section
  {
    if k < 8 then Normal else Bright
  }

  /** The colour name of palette entry `k`. */
  function NameOf(k: nat): string
    requires k < 16
  {
    if k < 8 then ColorNames[k] else ColorNames[k - 8]
  }

  /** A table laid out as Alacritty's: entry `k` is colour `k`, in the
    * normal section for the first eight and the bright one for the
    * rest, under the section's colour names. */
  predicate SectionTable(entries: seq<SectionSlot>)
  {
    |entries| == 16 && forall k :: 0 <= k < 16 ==> entries[k] == SectionSlot(SectionOf(k), NameOf(k), k)
  }

  /** Alacritty's table is laid out that way. */
  lemma AlacrittyTable()
    ensures SectionTable(AlacrittyColors)
  {
  }

  /** `fmt`'s `%-7s`: the text padded with spaces on the right to seven
    * characters; a longer text is kept whole. */
  function PadRight(s: string, width: nat): (r: string)
    decreases width - |s|
  {
    if |s| >= width then s else PadRight(s + " ", width)
  }

  /** A padded text is the text and then spaces, as wide as asked or as
    * the text, whichever is wider. */
  lemma {:induction false} PadRightSpec(s: string, width: nat)
    ensures var r := PadRight(s, width);
            |r| == (if |s| < width then width else |s|)
            && HasPrefix(r, s) && forall k :: |s| <= k < |r| ==> r[k] == ' '
    decreases width - |s|
  {
    if |s| < width {
      PadRightSpec(s + " ", width);
      var r := PadRight(s, width);
      assert r[..|s| + 1][..|s|] == r[..|s|];
    }
  }

  /** Alacritty's line for a slot: the padded name and the quoted
    * colour. */
  function AlacrittyLine(name: string, color: string): string
  {
    PadRight(name, 7) + " = '" + color + "'"
  }

  /** The header line of a section. */
  function SectionHeader(section: Section): string
  {
    "[colors." + SectionName(section) + "]\n"
  }

  /** Every slot of the table reads a colour the palette has. */
  predicate Indexes(entries: seq<SectionSlot>, colors: seq<string>)
  {
    forall k :: 0 <= k < |entries| ==> entries[k].index < |colors|
  }

  /** The section the writer is in after the entries: the last one's, or
    * none. */
  function CurrentSection(entries: seq<SectionSlot>): Section
  {
    if |entries| == 0 then NoSection else entries[|entries| - 1].section
  }

  /** What the writer puts before an entry of `section` while it is in
    * `current`: nothing within a section; else the new section's header,
    * after a blank line unless no section was open. */
  function HeaderFor(current: Section, section: Section): string
  {
    if section != current then (if current != NoSection then "\n" else "") + SectionHeader(section) else ""
  }

  /** What the writer adds for entry `e` while it is in `current`: the
    * header, if any, and the entry's line. */
  function EntryText(current: Section, e: SectionSlot, colors: seq<string>): string
    requires e.index < |colors|
  {
    HeaderFor(current, e.section) + AlacrittyLine(e.name, colors[e.index]) + "\n"
  }

  /** Within a section an entry adds only its line. */
  lemma EntryWithin(current: Section, e: SectionSlot, colors: seq<string>)
    requires e.index < |colors| && current == e.section
    ensures EntryText(current, e, colors) == AlacrittyLine(e.name, colors[e.index]) + "\n"
  {
    assert HeaderFor(current, e.section) == "";
  }

  /** What the Alacritty writer has produced after the given entries: each
    * entry opening a new section first writes its header, preceded by a
    * blank line unless it is the first section. */
  function Rendered(entries: seq<SectionSlot>, colors: seq<string>): (r: string)
    requires Indexes(entries, colors)
  {
    if |entries| == 0 then ""
    else
      var init := entries[..|entries| - 1];
      Rendered(init, colors) + EntryText(CurrentSection(init), entries[|entries| - 1], colors)
  }

  /** `GenerateAlacrittyTheme`. */
  method GenerateAlacrittyTheme(colors: seq<string>) returns (r: string)
    requires |colors| >= 16
    ensures r == Rendered(AlacrittyColors, colors)
  {
    AlacrittyTable();
    r := WriteSections(AlacrittyColors, colors);
  }

  /** The Alacritty writer's loop over its table, tracking the section it
    * is in (its name, `""` before the first). */
  method WriteSections(entries: seq<SectionSlot>, colors: seq<string>) returns (r: string)
    requires Indexes(entries, colors)
    ensures r == Rendered(entries, colors)
  {
    var result := "";
    var currentSection := NoSection;
    var i := 0;
    while i < |entries|
      invariant 0 <= i <= |entries|
      invariant result == Rendered(entries[..i], colors)
      invariant currentSection == CurrentSection(entries[..i])
    {
      var ac := entries[i];
      assert entries[..i + 1][..i] == entries[..i];
      ghost var before := result;
      ghost var piece := EntryText(currentSection, ac, colors);
      var header := "";
      if ac.section != currentSection {
        if currentSection != NoSection {
          header := "\n";
        }
        header := header + SectionHeader(ac.section);
        currentSection := ac.section;
      }
      assert piece == header + AlacrittyLine(ac.name, colors[ac.index]) + "\n";
      result := result + (header + AlacrittyLine(ac.name, colors[ac.index]) + "\n");
      assert result == before + piece;
      i := i + 1;
    }
    assert entries[..i] == entries;
    r := result;
  }

  /** The eight lines of one section, from the palette starting at
    * `base`. */
  function SectionLines(colors: seq<string>, base: nat): (r: seq<string>)
    requires base + 8 <= |colors|
    ensures |r| == 8 && forall k :: 0 <= k < 8 ==> r[k] == AlacrittyLine(ColorNames[k], colors[base + k])
  {
    seq(8, k requires 0 <= k < 8 => AlacrittyLine(ColorNames[k], colors[base + k]))
  }

  /** The Alacritty theme is a "normal" section holding colours 0 to 7 and
    * a "bright" section holding colours 8 to 15, one blank line between
    * them. */
  lemma AlacrittyLayout(colors: seq<string>)
    requires |colors| >= 16
    ensures Rendered(AlacrittyColors, colors)
            == SectionHeader(Normal) + Terminated(SectionLines(colors, 0))
               + "\n" + SectionHeader(Bright) + Terminated(SectionLines(colors, 8))
  {
    AlacrittyTable();
    TableLayout(AlacrittyColors, colors);
  }

  /** The same for any table laid out as Alacritty's. */
  lemma TableLayout(entries: seq<SectionSlot>, colors: seq<string>)
    requires SectionTable(entries) && |colors| >= 16
    ensures Indexes(entries, colors)
    ensures Rendered(entries, colors)
            == SectionHeader(Normal) + Terminated(SectionLines(colors, 0))
               + "\n" + SectionHeader(Bright) + Terminated(SectionLines(colors, 8))
  {
    BrightRendered(entries, colors, 16);
    assert entries[..16] == entries;
    assert SectionLines(colors, 8)[..8] == SectionLines(colors, 8);
  }

  /** One more line of terminated lines. */
  lemma TerminatedStep(lines: seq<string>, k: nat)
    requires k < |lines|
    ensures Terminated(lines[..k + 1]) == (Terminated(lines[..k]) + lines[k]) + "\n"
  {
    assert lines[..k + 1][..k] == lines[..k];
  }

  /** Every prefix of such a table reads colours the palette has. */
  lemma TableIndexes(entries: seq<SectionSlot>, colors: seq<string>, j: nat)
    requires SectionTable(entries) && |colors| >= 16 && j <= 16
    ensures Indexes(entries[..j], colors)
  {
  }

  /** One more entry of such a table: the output so far and the entry's
    * own text, in the section of the entry before it. */
  lemma RenderedStep(entries: seq<SectionSlot>, colors: seq<string>, j: nat)
    requires SectionTable(entries) && |colors| >= 16 && 1 <= j <= 16
    ensures Indexes(entries[..j], colors) && Indexes(entries[..j - 1], colors)
    ensures Rendered(entries[..j], colors)
            == Rendered(entries[..j - 1], colors)
               + EntryText(if j == 1 then NoSection else SectionOf(j - 2), SectionSlot(SectionOf(j - 1), NameOf(j - 1), j - 1), colors)
  {
    TableIndexes(entries, colors, j);
    TableIndexes(entries, colors, j - 1);
    var prefix := entries[..j];
    assert prefix[..j - 1] == entries[..j - 1];
    assert prefix[j - 1] == entries[j - 1];
  }

  /** Opening the bright section: after the whole normal section, the
    * first bright entry writes a blank line and the bright header before
    * its line. */
  lemma BrightOpens(entries: seq<SectionSlot>, colors: seq<string>)
    requires SectionTable(entries) && |colors| >= 16
    ensures Indexes(entries[..9], colors)
    ensures Rendered(entries[..9], colors)
            == SectionHeader(Normal) + Terminated(SectionLines(colors, 0))
               + "\n" + SectionHeader(Bright) + Terminated(SectionLines(colors, 8)[..1])
  {
    TableIndexes(entries, colors, 9);
    var lines := SectionLines(colors, 8);
    var normal := SectionHeader(Normal) + Terminated(SectionLines(colors, 0));
    assert Terminated(lines[..1]) == ("" + lines[0]) + "\n" by {
      TerminatedStep(lines, 0);
      assert lines[..0] == [];
    }
    assert Rendered(entries[..9], colors) == normal + ((("\n" + SectionHeader(Bright)) + lines[0]) + "\n") by {
      RenderedStep(entries, colors, 9);
      NormalWhole(entries, colors);
      BrightFirstEntry(colors);
    }
    OpenSection(Rendered(entries[..9], colors), normal, SectionHeader(Bright), lines[0], Terminated(lines[..1]));
  }

  /** The text after a section's first line, regrouped. */
  lemma OpenSection(text: string, normal: string, bright: string, line: string, first: string)
    requires text == normal + ((("\n" + bright) + line) + "\n")
    requires first == ("" + line) + "\n"
    ensures text == normal + "\n" + bright + first
  {
    Regroup(normal, "\n" + bright, line, "\n");
    Assoc(normal, "\n", bright);
    EmptyLeft(line);
  }

  /** The whole normal section. */
  lemma NormalWhole(entries: seq<SectionSlot>, colors: seq<string>)
    requires SectionTable(entries) && |colors| >= 16
    ensures Indexes(entries[..8], colors)
    ensures Rendered(entries[..8], colors) == SectionHeader(Normal) + Terminated(SectionLines(colors, 0))
  {
    NormalRendered(entries, colors, 8);
    assert SectionLines(colors, 0)[..8] == SectionLines(colors, 0);
  }

  /** The first bright entry, written in the normal section. */
  lemma BrightFirstEntry(colors: seq<string>)
    requires |colors| >= 16
    ensures EntryText(Normal, SectionSlot(SectionOf(8), NameOf(8), 8), colors)
            == (("\n" + SectionHeader(Bright)) + SectionLines(colors, 8)[0]) + "\n"
  {
    assert NameOf(8) == ColorNames[0];
  }

  /** Joining texts is associative. */
  lemma Assoc(a: string, b: string, c: string)
    ensures (a + b) + c == a + (b + c)
  {
  }

  /** The empty text joins as nothing. */
  lemma EmptyLeft(a: string)
    ensures "" + a == a
  {
  }

  /** Regrouping a text that ends in two joined parts. */
  lemma Regroup(a: string, b: string, c: string, d: string)
    ensures (a + b) + (c + d) == a + ((b + c) + d)
  {
  }

  /** The output after the first `j` entries of the normal section. */
  lemma {:induction false} NormalRendered(entries: seq<SectionSlot>, colors: seq<string>, j: nat)
    requires SectionTable(entries) && |colors| >= 16 && 1 <= j <= 8
    ensures Indexes(entries[..j], colors)
    ensures Rendered(entries[..j], colors) == SectionHeader(Normal) + Terminated(SectionLines(colors, 0)[..j])
  {
    RenderedStep(entries, colors, j);
    var lines := SectionLines(colors, 0);
    var line := lines[j - 1];
    var head := SectionHeader(Normal);
    var upTo := Terminated(lines[..j - 1]);
    TerminatedStep(lines, j - 1);
    var slot := SectionSlot(Normal, NameOf(j - 1), j - 1);
    assert slot.name == ColorNames[j - 1];
    var before := Rendered(entries[..j - 1], colors);
    if j == 1 {
      assert lines[..0] == [] && upTo == "" && before == "";
      assert EntryText(NoSection, slot, colors) == (head + line) + "\n";
      Regroup(head, "", line, "\n");
    } else {
      NormalRendered(entries, colors, j - 1);
      EntryWithin(Normal, slot, colors);
      assert before == head + upTo;
      Regroup(head, upTo, line, "\n");
    }
  }

  /** The output after the normal section and the first `j - 8` entries
    * of the bright one. */
  lemma {:induction false} BrightRendered(entries: seq<SectionSlot>, colors: seq<string>, j: nat)
    requires SectionTable(entries) && |colors| >= 16 && 9 <= j <= 16
    ensures Indexes(entries[..j], colors)
    ensures Rendered(entries[..j], colors)
            == SectionHeader(Normal) + Terminated(SectionLines(colors, 0))
               + "\n" + SectionHeader(Bright) + Terminated(SectionLines(colors, 8)[..j - 8])
  {
    if j == 9 {
      BrightOpens(entries, colors);
    } else {
      RenderedStep(entries, colors, j);
      BrightRendered(entries, colors, j - 1);
      var lines := SectionLines(colors, 8);
      var line := lines[j - 9];
      var head := SectionHeader(Normal) + Terminated(SectionLines(colors, 0)) + "\n" + SectionHeader(Bright);
      var upTo := Terminated(lines[..j - 9]);
      TerminatedStep(lines, j - 9);
      var slot := SectionSlot(Bright, NameOf(j - 1), j - 1);
      assert slot.name == ColorNames[j - 9];
      EntryWithin(Bright, slot, colors);
      assert Rendered(entries[..j - 1], colors) == head + upTo;
      Regroup(head, upTo, line, "\n");
    }
  }

  // ---------------------------------------------------------------------
  // Ghostty

  /** Ghostty's line for palette entry `i`. */
  function GhosttyLine(i: nat, color: string): string
  {
    "palette = " + NatToString(i) + "=" + color
  }

  /** One Ghostty line per colour, in order. */
  function GhosttyLines(colors: seq<string>): (r: seq<string>)
    ensures |r| == |colors| && forall k :: 0 <= k < |colors| ==> r[k] == GhosttyLine(k, colors[k])
  {
    seq(|colors|, k requires 0 <= k < |colors| => GhosttyLine(k, colors[k]))
  }

  /** `GenerateGhosttyTheme`: every colour given, however many. */
  method GenerateGhosttyTheme(colors: seq<string>) returns (r: string)
    ensures r == Terminated(GhosttyLines(colors))
  {
    var lines := GhosttyLines(colors);
    var result := "";
    var i := 0;
    while i < |colors|
      invariant 0 <= i <= |colors|
      invariant result == Terminated(lines[..i])
    {
      assert lines[..i + 1][..i] == lines[..i];
      result := result + "palette = " + NatToString(i) + "=" + colors[i] + "\n";
      i := i + 1;
    }
    assert lines[..i] == lines;
    r := result;
  }

  /** The palette number on a Ghostty line reads back as its position:
    * the text after "palette = " up to the first '=' is the index, in
    * decimal, whatever the colour holds. */
  lemma GhosttyIndexReadsBack(i: nat, color: string)
    requires IsInt64(i)
    ensures var line := GhosttyLine(i, color);
            var rest := line[10..];
            var eq := IndexChar(rest, '=');
            0 <= eq && Atoi(rest[..eq]) == Some(i)
  {
    var line := GhosttyLine(i, color);
    var digits := NatToString(i);
    var rest := line[10..];
    assert rest == digits + "=" + color;
    assert '=' !in digits by {
      forall k | 0 <= k < |digits| ensures digits[k] != '=' {
        assert IsDigit(digits[k]);
      }
    }
    assert rest[|digits|] == '=';
    assert rest[..|digits|] == digits;
    var eq := IndexChar(rest, '=');
    assert eq == |digits| by {
      assert '=' !in rest[..|digits|];
      assert rest[..eq] == digits[..eq] || eq >= |digits|;
    }
    AtoiOfIntToString(i);
  }

  // ---------------------------------------------------------------------
  // Reading a theme back

  /** Lines free of line breaks, each written with its break, split back
    * into the lines (and the empty text after the last break). */
  lemma {:induction false} TerminatedSplitsBack(lines: seq<string>)
    requires forall k :: 0 <= k < |lines| ==> '\n' !in lines[k]
    ensures Split(Terminated(lines), "\n") == lines + [""]
  {
    TerminatedThenLine(lines, "");
    assert Terminated(lines) + "" == Terminated(lines);
    SplitJoinChar(lines + [""], '\n');
  }

  /** A Kitty theme of colours free of line breaks is exactly sixteen lines
    * (each ended by a break), line `k` naming `color<k>` and colour
    * `k`. */
  lemma KittyThemeLines(colors: seq<string>)
    requires |colors| >= 16 && forall k :: 0 <= k < 16 ==> '\n' !in colors[k]
    ensures var lines := Split(Terminated(KittyLines(colors)), "\n");
            |lines| == 17 && lines[16] == ""
            && forall k :: 0 <= k < 16 ==> lines[k] == "color" + NatToString(k) + "   " + colors[k]
  {
    var lines := KittyLines(colors);
    KittyLinesNamed(colors);
    forall k | 0 <= k < 16 ensures '\n' !in lines[k] {
      assert '\n' !in NatToString(k) by {
        forall j | 0 <= j < |NatToString(k)| ensures NatToString(k)[j] != '\n' {
          assert IsDigit(NatToString(k)[j]);
        }
      }
    }
    TerminatedSplitsBack(lines);
  }
}
