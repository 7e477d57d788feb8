/** A worked run of the territory summariser on a two-block text feed, from the
    raw text to the summary rows. The feed is not JSON, so `load_data` hands it
    to the text parser. */
module TerritoryExample {
  import opened Wrappers
  import opened Text
  import opened Territory

  /** "CLOSED: 3": a key in capitals. */
  const ClosedLine: string := "CLOSED" + ":" + " 3"

  /** "Open: 2": a key in title case. */
  const OpenLine: string := "Open" + ":" + " 2"

  /** "planned: x": a value that is not an integer. */
  const PlannedLine: string := "planned" + ":" + " x"

  /** The counter lines of the first block. */
  const AlphaCounters: string := ClosedLine + "\n" + OpenLine

  /** The first block, "Alpha\nCLOSED: 3\nOpen: 2". */
  const Alpha: string := "Alpha" + "\n" + AlphaCounters

  /** The second block, "Beta\nplanned: x", whose counter value is not an integer. */
  const Beta: string := "Beta" + "\n" + PlannedLine

  /** The whole feed: the two blocks with the separator between them. */
  const Feed: string := Alpha + "\n\n" + Beta

  lemma NameLines()
    ensures IsLine("Alpha") && IsLine("Beta")
  {
  }

  lemma AlphaCounterLines()
    ensures IsLine(ClosedLine) && IsLine(OpenLine)
  {
  }

  lemma BetaCounterLine()
    ensures IsLine(PlannedLine)
  {
  }

  /** Neither block holds a separator. */
  lemma BlocksHaveNoSeparator()
    ensures !HasSeparator(Alpha) && !HasSeparator(Beta)
  {
    NameLines();
    AlphaCounterLines();
    BetaCounterLine();
    LineHasNoSeparator(OpenLine);
    LinesHaveNoSeparator(ClosedLine, OpenLine);
    LinesHaveNoSeparator("Alpha", AlphaCounters);
    LineHasNoSeparator(PlannedLine);
    LinesHaveNoSeparator("Beta", PlannedLine);
  }

  /** The feed starts and ends with a letter, so stripping keeps it. */
  lemma FeedIsStripped()
    ensures Strip(Feed) == Feed
  {
    assert Feed[0] == 'A' && Feed[|Feed| - 1] == 'x';
    StripKeeps(Feed);
  }

  /** The feed splits at its one separator. */
  lemma FeedSplits()
    ensures SplitBlocks(Strip(Feed)) == [Alpha, Beta]
  {
    BlocksHaveNoSeparator();
    FeedIsStripped();
    SplitBlocksAtSeparator(Alpha, Beta);
    SplitBlocksWithoutSeparator(Beta);
  }

  /** Both blocks hold content. */
  lemma FeedBlocks()
    ensures ContentBlocks(SplitBlocks(Strip(Feed))) == [Alpha, Beta]
  {
    FeedSplits();
    assert !IsSpace(Alpha[0]) && !IsSpace(Beta[0]);
    assert [Alpha, Beta][1..] == [Beta];
    assert ContentBlocks([Beta]) == [Beta];
  }

  lemma NamesAreStripped()
    ensures Strip("Alpha") == "Alpha" && Strip("Beta") == "Beta"
  {
    StripKeeps("Alpha");
    StripKeeps("Beta");
  }

  lemma ClosedLineIsStripped()
    ensures Strip(ClosedLine) == ClosedLine
  {
    StripKeeps(ClosedLine);
  }

  lemma OpenLineIsStripped()
    ensures Strip(OpenLine) == OpenLine
  {
    StripKeeps(OpenLine);
  }

  lemma PlannedLineIsStripped()
    ensures Strip(PlannedLine) == PlannedLine
  {
    StripKeeps(PlannedLine);
  }

  /** The lines of the first block. */
  lemma AlphaSplitLines()
    ensures SplitLines(Alpha) == ["Alpha", ClosedLine, OpenLine]
  {
    NameLines();
    AlphaCounterLines();
    SplitLinesAtBreak("Alpha", AlphaCounters);
    SplitLinesAtBreak(ClosedLine, OpenLine);
    SplitLinesWithoutBreak(OpenLine);
  }

  /** The non-blank lines of the first block, stripped. */
  lemma AlphaLines()
    ensures BlockLines(Alpha) == ["Alpha", ClosedLine, OpenLine]
  {
    AlphaSplitLines();
    NamesAreStripped();
    ClosedLineIsStripped();
    OpenLineIsStripped();
    assert ClosedLine != [] && OpenLine != [];
    assert NonBlank([OpenLine]) == [OpenLine];
    assert NonBlank([ClosedLine, OpenLine]) == [ClosedLine, OpenLine] by {
      assert [ClosedLine, OpenLine][1..] == [OpenLine];
    }
    var ls := ["Alpha", ClosedLine, OpenLine];
    assert ls[1..] == [ClosedLine, OpenLine];
  }

  /** The lines of the second block. */
  lemma BetaSplitLines()
    ensures SplitLines(Beta) == ["Beta", PlannedLine]
  {
    NameLines();
    BetaCounterLine();
    SplitLinesAtBreak("Beta", PlannedLine);
    SplitLinesWithoutBreak(PlannedLine);
  }

  /** The non-blank lines of the second block, stripped. */
  lemma BetaLines()
    ensures BlockLines(Beta) == ["Beta", PlannedLine]
  {
    BetaSplitLines();
    NamesAreStripped();
    PlannedLineIsStripped();
    assert ["Beta", PlannedLine][1..] == [PlannedLine];
    assert NonBlank([PlannedLine]) == [PlannedLine];
  }

  lemma LowerKeys()
    ensures Lower("CLOSED") == "closed" && Lower("Open") == "open" && Lower("planned") == "planned"
  {
  }

  /** "CLOSED" selects the closed counter: keys match whatever their case. */
  lemma ClosedKey()
    ensures LookupKey(Strip("CLOSED")) == Some(Closed)
  {
    StripKeeps("CLOSED");
    LowerKeys();
  }

  lemma OpenKey()
    ensures LookupKey(Strip("Open")) == Some(Open)
  {
    StripKeeps("Open");
    LowerKeys();
  }

  lemma PlannedKey()
    ensures LookupKey(Strip("planned")) == Some(Planned)
  {
    StripKeeps("planned");
    LowerKeys();
  }

  /** No key holds a colon, so the first colon ends the key. */
  lemma KeysHaveNoColon()
    ensures ':' !in "CLOSED" && ':' !in "Open" && ':' !in "planned"
  {
  }

  /** One space before a character is stripped away. */
  lemma StripLeadingBlank(c: char)
    requires !IsSpace(c)
    ensures Strip([' ', c]) == [c]
  {
    StripSkipsSpace(' ', [c]);
    StripKeeps([c]);
    assert [' '] + [c] == [' ', c];
  }

  /** A single digit reads as its value. */
  lemma SingleDigit(c: char)
    requires IsDigit(c)
    ensures ParseInt([c]) == Some(DigitValue(c))
  {
    var s := [c];
    assert s[..0] == [];
    assert s[|s| - 1] == c;
    assert DigitsValue(s) == DigitValue(c);
    assert IsDigitGroup(s);
  }

  lemma ClosedAssignment()
    ensures LineAssignment(ClosedLine) == Some((Closed, 3))
  {
    ClosedKey();
    StripLeadingBlank('3');
    SingleDigit('3');
    KeysHaveNoColon();
    SplitAtFirstColon("CLOSED", " 3");
  }

  lemma OpenAssignment()
    ensures LineAssignment(OpenLine) == Some((Open, 2))
  {
    OpenKey();
    StripLeadingBlank('2');
    SingleDigit('2');
    KeysHaveNoColon();
    SplitAtFirstColon("Open", " 2");
  }

  /** "x" is not an integer: `int` raises ValueError, read as 0. */
  lemma PlannedAssignment()
    ensures LineAssignment(PlannedLine) == Some((Planned, 0))
  {
    PlannedKey();
    StripLeadingBlank('x');
    assert ParseInt("x") == None;
    KeysHaveNoColon();
    SplitAtFirstColon("planned", " x");
  }

  /** Two lines that assign counters, applied from the defaults. */
  lemma ApplyTwoLines(l1: string, l2: string, c1: Counter, v1: int, c2: Counter, v2: int)
    requires LineAssignment(l1) == Some((c1, v1)) && LineAssignment(l2) == Some((c2, v2))
    ensures ApplyLines(Zero, [l1, l2]) == Zero.Set(c1, v1).Set(c2, v2)
  {
    var a := ApplyLine(Zero, l1);
    assert a == Zero.Set(c1, v1);
    assert [l1, l2][1..] == [l2];
    assert ApplyLines(Zero, [l1, l2]) == ApplyLines(a, [l2]);
    assert ApplyLines(a, [l2]) == ApplyLine(a, l2);
  }

  /** One line that assigns a counter, applied from the defaults. */
  lemma ApplyOneLine(l: string, c: Counter, v: int)
    requires LineAssignment(l) == Some((c, v))
    ensures ApplyLines(Zero, [l]) == Zero.Set(c, v)
  {
  }

  /** A block whose lines are a name and then counter lines describes the record
      of that name with the counters those lines set. */
  lemma RecordOfLines(b: string, name: string, lines: seq<string>)
    requires BlockLines(b) == [name] + lines
    ensures BlockRecord(b) == DistrictRecord(name, ApplyLines(Zero, lines))
  {
    BlockLinesFollowContent(b);
    assert BlockLines(b)[0] == name;
    assert BlockLines(b)[1..] == lines;
  }

  /** Alpha's two counter lines set closed to 3 and open to 2. */
  lemma AlphaCounts()
    ensures ApplyLines(Zero, [ClosedLine, OpenLine]) == Counts(3, 0, 0, 2, 0)
  {
    ClosedAssignment();
    OpenAssignment();
    ApplyTwoLines(ClosedLine, OpenLine, Closed, 3, Open, 2);
  }

  /** The first block names Alpha and sets closed to 3 and open to 2. */
  lemma AlphaRecord()
    ensures BlockRecord(Alpha) == DistrictRecord("Alpha", Counts(3, 0, 0, 2, 0))
  {
    AlphaLines();
    assert BlockLines(Alpha) == ["Alpha"] + [ClosedLine, OpenLine];
    RecordOfLines(Alpha, "Alpha", [ClosedLine, OpenLine]);
    AlphaCounts();
  }

  /** The second block names Beta; its one counter line sets planned to 0. */
  lemma BetaRecord()
    ensures BlockRecord(Beta) == DistrictRecord("Beta", Zero)
  {
    BetaLines();
    assert BlockLines(Beta) == ["Beta"] + [PlannedLine];
    RecordOfLines(Beta, "Beta", [PlannedLine]);
    BetaCounts();
  }

  /** Beta's counter line sets planned to 0, its default. */
  lemma BetaCounts()
    ensures ApplyLines(Zero, [PlannedLine]) == Zero
  {
    PlannedAssignment();
    ApplyOneLine(PlannedLine, Planned, 0);
  }

  /** The text parser reads the feed as two records: Alpha with closed 3 and
      open 2, Beta with every counter 0. */
  lemma FeedRecords()
    ensures ParseRawText(Feed) == [DistrictRecord("Alpha", Counts(3, 0, 0, 2, 0)),
                                   DistrictRecord("Beta", Zero)]
  {
    FeedBlocks();
    ParseBlocksFollowContent(SplitBlocks(Strip(Feed)));
    AlphaRecord();
    BetaRecord();
  }

  /** Two records that normalise give two rows, one derived from each. */
  lemma ProcessTwo(d1: RawDistrict, d2: RawDistrict, x1: District, x2: District)
    requires NormalizeDistrict(d1) == Success(x1) && NormalizeDistrict(d2) == Success(x2)
    ensures var r := ProcessDistricts([d1, d2]);
            r.Success? && |r.value| == 2 && r.value[0] == DeriveRow(x1) && r.value[1] == DeriveRow(x2)
  {
    var ds := [d1, d2];
    assert ds[0] == d1 && ds[1] == d2;
  }

  /** Two records that normalise give their two rows, in order. */
  lemma SummarizeTwo(d1: RawDistrict, d2: RawDistrict, x1: District, x2: District)
    requires NormalizeDistrict(d1) == Success(x1) && NormalizeDistrict(d2) == Success(x2)
    ensures Summarize([d1, d2]) == Success([DeriveRow(x1), DeriveRow(x2)])
  {
    ProcessTwo(d1, d2, x1, x2);
    var r := ProcessDistricts([d1, d2]);
    PairIs(r.value, DeriveRow(x1), DeriveRow(x2));
  }

  lemma PairIs<T>(s: seq<T>, a: T, b: T)
    requires |s| == 2 && s[0] == a && s[1] == b
    ensures s == [a, b]
  {
  }

  /** The run on the feed gives one row per record, in feed order. */
  lemma FeedRows()
    ensures RunFeed(LoadFeed(Feed, None)) ==
            Success([DeriveRow(District(Str("Alpha"), Counts(3, 0, 0, 2, 0))),
                     DeriveRow(District(Str("Beta"), Zero))])
  {
    FeedRecords();
    NormalizeParsedDistrict("Alpha", Counts(3, 0, 0, 2, 0));
    NormalizeParsedDistrict("Beta", Zero);
    SummarizeTwo(DistrictRecord("Alpha", Counts(3, 0, 0, 2, 0)), DistrictRecord("Beta", Zero),
                 District(Str("Alpha"), Counts(3, 0, 0, 2, 0)), District(Str("Beta"), Zero));
  }

  /** Alpha's row: closed 3 of 5 is 60 percent, in progress. */
  lemma AlphaRow()
    ensures var r := DeriveRow(District(Str("Alpha"), Counts(3, 0, 0, 2, 0)));
            r.total == 5 && r.completionPct == 60.0 && StatusLabel(r.status) == "In Progress"
  {
  }

  /** Beta's row: nothing counted, 0 percent, open. */
  lemma BetaRow()
    ensures var r := DeriveRow(District(Str("Beta"), Counts(0, 0, 0, 0, 0)));
            r.total == 0 && r.completionPct == 0.0 && StatusLabel(r.status) == "Open"
  {
    ZeroCountsRow(District(Str("Beta"), Counts(0, 0, 0, 0, 0)));
    OpenLabel();
  }

  /** The label of an open district. */
  lemma OpenLabel()
    ensures StatusLabel(StatusOpen) == "Open"
  {
  }

  /** A district with every counter 0 has an empty, open row. */
  lemma ZeroCountsRow(d: District)
    requires d.counts == Zero
    ensures var r := DeriveRow(d);
            r.total == 0 && r.completionPct == 0.0 && r.status == StatusOpen
  {
  }

  /** The run on the feed: Alpha is 60 percent done and "In Progress"; Beta has
      nothing, a total of 0, 0 percent and "Open". The capitalised key counts,
      and the value "x" reads as 0. */
  lemma FeedSummary()
    ensures var r := RunFeed(LoadFeed(Feed, None));
            && r.Success? && |r.value| == 2
            && r.value[0].name == Str("Alpha") && r.value[0].total == 5
            && r.value[0].completionPct == 60.0 && StatusLabel(r.value[0].status) == "In Progress"
            && r.value[1].name == Str("Beta") && r.value[1].total == 0
            && r.value[1].completionPct == 0.0 && StatusLabel(r.value[1].status) == "Open"
  {
    FeedRows();
    AlphaRow();
    BetaRow();
  }
}
