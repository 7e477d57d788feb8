/** The territory status summariser (territory_status_summary.py): parse a feed of
    "Key: Value" blocks into district records, fill defaults, and derive one summary
    row per district with totals, a completion percentage and a status label. */
module Territory {
  import opened Wrappers
  import opened Text

  // ---------------------------------------------------------------------------
  // Counters and the synonym table
  // ---------------------------------------------------------------------------

  /** The five status counters every district carries. */
  datatype Counter = Closed | OffPlan | InProgress | Open | Planned

  /** The canonical column name of a counter (the values of STATUS_KEYS). */
  function ColumnName(c: Counter): string {
    match c
    case Closed => "closed"
    case OffPlan => "off_plan"
    case InProgress => "in_progress"
    case Open => "open"
    case Planned => "planned"
  }

  /** STATUS_KEYS: lower-case key text to the counter it sets. */
  const StatusKeys: map<string, Counter> := map[
    "closed" := Closed,
    "off plan" := OffPlan,
    "off_plan" := OffPlan,
    "in progress" := InProgress,
    "in_progress" := InProgress,
    "open" := Open,
    "planned" := Planned
  ]

  /** `STATUS_KEYS.get(key.lower())`. */
  function LookupKey(key: string): Option<Counter> {
    var k := Lower(key);
    if k in StatusKeys then Some(StatusKeys[k]) else None
  }

  /** The spellings that select a counter, in lower case. */
  function Synonyms(c: Counter): set<string> {
    match c
    case Closed => {"closed"}
    case OffPlan => {"off plan", "off_plan"}
    case InProgress => {"in progress", "in_progress"}
    case Open => {"open"}
    case Planned => {"planned"}
  }

  /** Equality of two texts once ASCII letters are folded to lower case. */
  predicate EqualIgnoringCase(a: string, b: string) {
    |a| == |b| && forall i :: 0 <= i < |a| ==> LowerChar(a[i]) == LowerChar(b[i])
  }

  lemma LowerOfLowerCase(t: string)
    requires forall i :: 0 <= i < |t| ==> !('A' <= t[i] <= 'Z')
    ensures Lower(t) == t
  {
  }

  lemma LowerMatchesIgnoringCase(key: string, t: string)
    requires Lower(t) == t
    ensures Lower(key) == t <==> EqualIgnoringCase(key, t)
  {
    if EqualIgnoringCase(key, t) {
      assert forall i :: 0 <= i < |t| ==> Lower(key)[i] == Lower(t)[i];
    }
  }

  /** The table maps a spelling to `c` exactly when it is one of `c`'s synonyms. */
  lemma TableMatchesSynonyms(k: string, c: Counter)
    ensures k in StatusKeys && StatusKeys[k] == c <==> k in Synonyms(c)
  {
  }

  /** Every synonym is already in lower case. */
  lemma SynonymsAreLowerCase(syn: string, c: Counter)
    requires syn in Synonyms(c)
    ensures Lower(syn) == syn
  {
    LowerOfLowerCase(syn);
  }

  /** A key selects counter `c` exactly when it equals one of `c`'s synonyms up
      to letter case; every other key selects nothing. */
  lemma KeyMatchIgnoresCase(key: string, c: Counter)
    ensures LookupKey(key) == Some(c) <==> exists syn :: syn in Synonyms(c) && EqualIgnoringCase(key, syn)
  {
    TableMatchesSynonyms(Lower(key), c);
    forall syn | syn in Synonyms(c)
      ensures Lower(key) == syn <==> EqualIgnoringCase(key, syn)
    {
      SynonymsAreLowerCase(syn, c);
      LowerMatchesIgnoringCase(key, syn);
    }
  }

  /** Every canonical column name is itself a key of the table, for its own counter. */
  lemma ColumnNamesAreKeys(c: Counter)
    ensures LookupKey(ColumnName(c)) == Some(c)
  {
    LowerOfLowerCase(ColumnName(c));
  }

  // ---------------------------------------------------------------------------
  // Counter records
  // ---------------------------------------------------------------------------

  /** The five counters of one district. */
  datatype Counts = Counts(closed: int, offPlan: int, inProgress: int, open: int, planned: int) {

    function Get(c: Counter): int {
      match c
      case Closed => closed
      case OffPlan => offPlan
      case InProgress => inProgress
      case Open => open
      case Planned => planned
    }

    /** The record with counter `c` replaced by `v`; the other four are kept. */
    function Set(c: Counter, v: int): (r: Counts)
      ensures r.Get(c) == v
      ensures forall d :: d != c ==> r.Get(d) == Get(d)
    {
      match c
      case Closed => this.(closed := v)
      case OffPlan => this.(offPlan := v)
      case InProgress => this.(inProgress := v)
      case Open => this.(open := v)
      case Planned => this.(planned := v)
    }
  }

  /** Every counter at its default, 0. */
  const Zero := Counts(0, 0, 0, 0, 0)

  // ---------------------------------------------------------------------------
  // Parsing "Key: Value" lines
  // ---------------------------------------------------------------------------

  /** `int(value)` with `ValueError` read as 0. */
  function IntOrZero(value: string): int {
    ParseInt(value).GetOr(0)
  }

  /** What one stripped line of a block assigns: the counter its key selects and
      the value after the first ':'; nothing for a line without ':' or with a key
      outside the table. */
  function LineAssignment(line: string): (r: Option<(Counter, int)>)
    ensures ':' !in line ==> r == None
  {
    match FirstIndexOf(line, ':')
    case None => None
    case Some(p) =>
      match LookupKey(Strip(line[..p]))
      case None => None
      case Some(c) => Some((c, IntOrZero(Strip(line[p + 1..]))))
  }

  /** Only the first ':' separates the key from the value: the value may hold
      further colons, and a value that is not an integer sets the counter to 0. */
  lemma SplitAtFirstColon(key: string, value: string)
    requires ':' !in key
    ensures LineAssignment(key + ":" + value) ==
            match LookupKey(Strip(key))
            case None => None
            case Some(c) => Some((c, ParseInt(Strip(value)).GetOr(0)))
  {
    var line := key + ":" + value;
    assert line[|key|] == ':';
    assert line[..|key|] == key;
    assert line[|key| + 1..] == value;
    assert FirstIndexOf(line, ':') == Some(|key|);
  }

  function ApplyLine(info: Counts, line: string): Counts {
    match LineAssignment(line)
    case None => info
    case Some((c, v)) => info.Set(c, v)
  }

  /** The loop over a block's lines after the name, first to last. */
  function ApplyLines(info: Counts, lines: seq<string>): Counts
    decreases |lines|
  {
    if |lines| == 0 then info else ApplyLines(ApplyLine(info, lines[0]), lines[1..])
  }

  lemma {:induction false} ApplyLinesSnoc(info: Counts, lines: seq<string>, line: string)
    ensures ApplyLines(info, lines + [line]) == ApplyLine(ApplyLines(info, lines), line)
    decreases |lines|
  {
    if |lines| > 0 {
      assert (lines + [line])[1..] == lines[1..] + [line];
      ApplyLinesSnoc(ApplyLine(info, lines[0]), lines[1..], line);
    }
  }

  /** The value given to `c` by the last line that assigns it, if any does. */
  function LastAssigned(lines: seq<string>, c: Counter): Option<int>
    decreases |lines|
  {
    if |lines| == 0 then None
    else match LineAssignment(lines[|lines| - 1])
      case Some((d, v)) => if d == c then Some(v) else LastAssigned(lines[..|lines| - 1], c)
      case None => LastAssigned(lines[..|lines| - 1], c)
  }

  /** Later lines overwrite earlier ones for the same counter, and a counter that
      no line assigns keeps its starting value. */
  lemma {:induction false} LaterLinesOverwrite(info: Counts, lines: seq<string>, c: Counter)
    ensures ApplyLines(info, lines).Get(c) == LastAssigned(lines, c).GetOr(info.Get(c))
    decreases |lines|
  {
    if |lines| > 0 {
      var init := lines[..|lines| - 1];
      assert lines == init + [lines[|lines| - 1]];
      ApplyLinesSnoc(info, init, lines[|lines| - 1]);
      LaterLinesOverwrite(info, init, c);
    }
  }

  // ---------------------------------------------------------------------------
  // Blocks and lines
  // ---------------------------------------------------------------------------

  /** Whether `s` contains the block separator "\n\n". */
  predicate HasSeparator(s: string) {
    |s| >= 2 && ((s[0] == '\n' && s[1] == '\n') || HasSeparator(s[1..]))
  }

  /** Blocks glued back with the separator between them. */
  function JoinBlocks(blocks: seq<string>): string
    requires |blocks| > 0
  {
    if |blocks| == 1 then blocks[0] else blocks[0] + "\n\n" + JoinBlocks(blocks[1..])
  }

  /** `s.split("\n\n")`: cut at each leftmost non-overlapping separator. */
  function SplitBlocks(s: string): (r: seq<string>)
    ensures |r| > 0
  {
    if |s| < 2 then
      [s]
    else if s[0] == '\n' && s[1] == '\n' then
      [""] + SplitBlocks(s[2..])
    else
      var rest := SplitBlocks(s[1..]);
      [[s[0]] + rest[0]] + rest[1..]
  }

  /** The first piece of a split is a prefix of the text. */
  lemma {:induction false} SplitBlocksHead(s: string)
    ensures |SplitBlocks(s)[0]| <= |s|
    ensures SplitBlocks(s)[0] == s[..|SplitBlocks(s)[0]|]
  {
    if |s| >= 2 && !(s[0] == '\n' && s[1] == '\n') {
      SplitBlocksHead(s[1..]);
    }
  }

  /** The pieces of a split rebuild the text, none of them contains the
      separator, and every piece but the last is cut at the leftmost separator
      after it: it does not end in a line feed, so no separator starts inside it.
      These three facts single out the result of `str.split`. */
  lemma {:induction false} SplitBlocksSpec(s: string)
    ensures JoinBlocks(SplitBlocks(s)) == s
    ensures forall k :: 0 <= k < |SplitBlocks(s)| ==> !HasSeparator(SplitBlocks(s)[k])
    ensures forall k :: 0 <= k < |SplitBlocks(s)| - 1 ==> !EndsInLineFeed(SplitBlocks(s)[k])
  {
    SplitBlocksRebuild(s);
    SplitBlocksCutLeftmost(s);
  }

  /** Whether the last character of `p` is a line feed. */
  predicate EndsInLineFeed(p: string) {
    |p| > 0 && p[|p| - 1] == '\n'
  }

  lemma {:induction false} SplitBlocksRebuild(s: string)
    ensures JoinBlocks(SplitBlocks(s)) == s
    ensures forall k :: 0 <= k < |SplitBlocks(s)| ==> !HasSeparator(SplitBlocks(s)[k])
  {
    if |s| < 2 {
    } else if s[0] == '\n' && s[1] == '\n' {
      var rest := SplitBlocks(s[2..]);
      SplitBlocksRebuild(s[2..]);
      assert s == "\n\n" + s[2..];
      assert SplitBlocks(s)[1..] == rest;
    } else {
      var rest := SplitBlocks(s[1..]);
      SplitBlocksRebuild(s[1..]);
      SplitBlocksHead(s[1..]);
      var first := [s[0]] + rest[0];
      assert SplitBlocks(s) == [first] + rest[1..];
      FirstPieceHasNoSeparator(s, rest);
      JoinCons(s[0], rest);
      assert s == [s[0]] + s[1..];
    }
  }

  /** A split whose first piece is empty and that has more pieces starts at a
      separator. */
  lemma EmptyHeadMeansSeparator(t: string)
    requires |SplitBlocks(t)| > 1 && SplitBlocks(t)[0] == []
    ensures |t| >= 2 && t[0] == '\n' && t[1] == '\n'
  {
  }

  lemma {:induction false} SplitBlocksCutLeftmost(s: string)
    ensures forall k :: 0 <= k < |SplitBlocks(s)| - 1 ==> !EndsInLineFeed(SplitBlocks(s)[k])
  {
    if |s| < 2 {
    } else if s[0] == '\n' && s[1] == '\n' {
      var rest := SplitBlocks(s[2..]);
      SplitBlocksCutLeftmost(s[2..]);
      assert forall k :: 1 <= k < |rest| + 1 ==> SplitBlocks(s)[k] == rest[k - 1];
    } else {
      var rest := SplitBlocks(s[1..]);
      SplitBlocksCutLeftmost(s[1..]);
      var first := [s[0]] + rest[0];
      assert SplitBlocks(s) == [first] + rest[1..];
      assert forall k :: 1 <= k < |rest| ==> SplitBlocks(s)[k] == rest[k];
      if |rest| > 1 {
        if rest[0] == [] {
          EmptyHeadMeansSeparator(s[1..]);
          assert first == [s[0]];
        } else {
          assert first[|first| - 1] == rest[0][|rest[0]| - 1];
        }
      }
    }
  }

  lemma FirstPieceHasNoSeparator(s: string, rest: seq<string>)
    requires |s| >= 2 && !(s[0] == '\n' && s[1] == '\n')
    requires |rest| > 0 && !HasSeparator(rest[0])
    requires |rest[0]| <= |s| - 1 && rest[0] == s[1..][..|rest[0]|]
    ensures !HasSeparator([s[0]] + rest[0])
  {
    var first := [s[0]] + rest[0];
    assert first[1..] == rest[0];
    if |first| >= 2 {
      assert first[1] == s[1];
    }
  }

  lemma JoinCons(c: char, rest: seq<string>)
    requires |rest| > 0
    ensures JoinBlocks([[c] + rest[0]] + rest[1..]) == [c] + JoinBlocks(rest)
  {
    if |rest| > 1 {
      assert ([[c] + rest[0]] + rest[1..])[1..] == rest[1..];
    }
  }

  /** A piece without a separator that does not end in a line feed, followed by
      the separator, is cut off as the first block. */
  lemma {:induction false} SplitBlocksAtSeparator(a: string, rest: string)
    requires !HasSeparator(a) && !EndsInLineFeed(a)
    ensures SplitBlocks(a + "\n\n" + rest) == [a] + SplitBlocks(rest)
    decreases |a|
  {
    var s := a + "\n\n" + rest;
    if |a| == 0 {
      assert s == "\n\n" + rest;
      assert s[2..] == rest;
    } else {
      assert s[0] == a[0];
      assert s[1] == if |a| > 1 then a[1] else '\n';
      assert !HasSeparator(a[1..]);
      assert s[1..] == a[1..] + "\n\n" + rest;
      SplitBlocksAtSeparator(a[1..], rest);
      assert [a[0]] + a[1..] == a;
    }
  }

  /** Text without a separator is a single block. */
  lemma {:induction false} SplitBlocksWithoutSeparator(b: string)
    requires !HasSeparator(b)
    ensures SplitBlocks(b) == [b]
    decreases |b|
  {
    if |b| >= 2 {
      SplitBlocksWithoutSeparator(b[1..]);
      assert [b[0]] + b[1..] == b;
    }
  }

  /** The index of the first line break in `s`, or `|s|` when there is none. */
  function LineEnd(s: string): (n: nat)
    ensures n <= |s|
    ensures forall i :: 0 <= i < n ==> !IsLineBreak(s[i])
    ensures n < |s| ==> IsLineBreak(s[n])
  {
    if |s| == 0 || IsLineBreak(s[0]) then 0 else 1 + LineEnd(s[1..])
  }

  /** `s` cut at every line-break character. Unlike `str.splitlines` this also cuts
      CR LF twice and keeps an empty piece after a final break; both extra pieces
      are blank, and blank pieces are dropped by `NonBlank` below. */
  function SplitLines(s: string): (r: seq<string>)
    ensures |r| > 0 && r[0] == s[..LineEnd(s)]
    ensures forall k, i :: 0 <= k < |r| && 0 <= i < |r[k]| ==> !IsLineBreak(r[k][i])
  {
    if |s| == 0 then [""]
    else
      var rest := SplitLines(s[1..]);
      if IsLineBreak(s[0]) then [""] + rest
      else
        var first := [s[0]] + rest[0];
        assert first == s[..LineEnd(s)];
        [first] + rest[1..]
  }

  /** Text without a line-break character: one line. */
  predicate IsLine(s: string) {
    forall i :: 0 <= i < |s| ==> !IsLineBreak(s[i])
  }

  /** A line holds no separator. */
  lemma {:induction false} LineHasNoSeparator(x: string)
    requires IsLine(x)
    ensures !HasSeparator(x)
    decreases |x|
  {
    if |x| >= 2 {
      assert IsLineBreak(x[0]) || x[0] != '\n';
      assert IsLine(x[1..]) by {
        assert forall i :: 0 <= i < |x[1..]| ==> x[1..][i] == x[i + 1];
      }
      LineHasNoSeparator(x[1..]);
    }
  }

  /** A non-empty line, a single line feed and text that holds no separator and
      does not start with a line feed together hold no separator. */
  lemma {:induction false} LinesHaveNoSeparator(x: string, rest: string)
    requires IsLine(x) && |x| > 0
    requires !HasSeparator(rest) && (rest == [] || rest[0] != '\n')
    ensures !HasSeparator(x + "\n" + rest)
    decreases |x|
  {
    var s := x + "\n" + rest;
    assert IsLineBreak(x[0]) || x[0] != '\n';
    if |x| == 1 {
      assert s[1..] == "\n" + rest;
      assert s[1..][1..] == rest;
    } else {
      assert IsLine(x[1..]) by {
        assert forall i :: 0 <= i < |x[1..]| ==> x[1..][i] == x[i + 1];
      }
      assert s[1..] == x[1..] + "\n" + rest;
      LinesHaveNoSeparator(x[1..], rest);
    }
  }

  /** A line without a break, followed by a line feed, is cut off as the first
      line. */
  lemma {:induction false} SplitLinesAtBreak(x: string, rest: string)
    requires IsLine(x)
    ensures SplitLines(x + "\n" + rest) == [x] + SplitLines(rest)
    decreases |x|
  {
    var s := x + "\n" + rest;
    if |x| == 0 {
      assert s[1..] == rest;
    } else {
      assert s[1..] == x[1..] + "\n" + rest;
      SplitLinesAtBreak(x[1..], rest);
      assert [x[0]] + x[1..] == x;
    }
  }

  /** Text without a line break is a single line. */
  lemma {:induction false} SplitLinesWithoutBreak(y: string)
    requires IsLine(y)
    ensures SplitLines(y) == [y]
    decreases |y|
  {
    if |y| > 0 {
      SplitLinesWithoutBreak(y[1..]);
      assert [y[0]] + y[1..] == y;
    }
  }

  /** `[line.strip() for line in lines if line.strip()]`. */
  function NonBlank(lines: seq<string>): (r: seq<string>)
    ensures forall k :: 0 <= k < |r| ==> r[k] != [] && !IsSpace(r[k][0])
    ensures |r| <= |lines|
  {
    if |lines| == 0 then []
    else if Strip(lines[0]) == [] then NonBlank(lines[1..])
    else [Strip(lines[0])] + NonBlank(lines[1..])
  }

  /** The stripped non-blank lines of a block. */
  function BlockLines(block: string): seq<string> {
    NonBlank(SplitLines(block))
  }

  /** Whether a block has a character that is not whitespace. */
  predicate HasContent(s: string) {
    exists i :: 0 <= i < |s| && !IsSpace(s[i])
  }

  /** The first line that is not blank, stripped; found by scanning characters
      (empty when there is none). */
  function FirstContentLine(s: string): string {
    if |s| == 0 then ""
    else if IsSpace(s[0]) then FirstContentLine(s[1..])
    else TrimEnd(s[..LineEnd(s)])
  }

  lemma ContentSplitsAtHead(s: string)
    requires |s| > 0
    ensures HasContent(s) <==> !IsSpace(s[0]) || HasContent(s[1..])
  {
    if HasContent(s) && IsSpace(s[0]) {
      var i :| 0 <= i < |s| && !IsSpace(s[i]);
      assert s[1..][i - 1] == s[i];
    }
    if HasContent(s[1..]) {
      var i :| 0 <= i < |s[1..]| && !IsSpace(s[1..][i]);
      assert s[i + 1] == s[1..][i];
    }
  }

  /** Leading whitespace adds no non-blank line to a block. */
  lemma BlockLinesSkipSpace(s: string)
    requires |s| > 0 && IsSpace(s[0])
    ensures BlockLines(s) == BlockLines(s[1..])
  {
    if IsLineBreak(s[0]) {
      BlockLinesSkipBreak(s);
    } else {
      BlockLinesSkipBlank(s);
    }
  }

  lemma BlockLinesSkipBreak(s: string)
    requires |s| > 0 && IsLineBreak(s[0])
    ensures BlockLines(s) == BlockLines(s[1..])
  {
    var rest := SplitLines(s[1..]);
    assert SplitLines(s) == [""] + rest;
    assert ([""] + rest)[1..] == rest;
  }

  lemma BlockLinesSkipBlank(s: string)
    requires |s| > 0 && IsSpace(s[0]) && !IsLineBreak(s[0])
    ensures BlockLines(s) == BlockLines(s[1..])
  {
    var rest := SplitLines(s[1..]);
    var first := [s[0]] + rest[0];
    StripSkipsSpace(s[0], rest[0]);
    assert SplitLines(s) == [first] + rest[1..];
    assert ([first] + rest[1..])[1..] == rest[1..];
    assert rest == [rest[0]] + rest[1..];
  }

  /** A block that starts with a non-whitespace character has its first line,
      trimmed at the end, as its first non-blank line. */
  lemma BlockLinesAtContent(s: string)
    requires |s| > 0 && !IsSpace(s[0])
    ensures |BlockLines(s)| > 0 && BlockLines(s)[0] == TrimEnd(s[..LineEnd(s)])
  {
    var line := s[..LineEnd(s)];
    assert line[0] == s[0];
    assert SplitLines(s)[0] == line;
    assert TrimStart(line) == line;
    assert |TrimEnd(line)| > 0;
  }

  /** A block has a non-blank line exactly when it has a non-whitespace character,
      and then its first non-blank line is the one holding that character. */
  lemma {:induction false} BlockLinesFollowContent(s: string)
    ensures |BlockLines(s)| > 0 <==> HasContent(s)
    ensures HasContent(s) ==> BlockLines(s)[0] == FirstContentLine(s)
  {
    if |s| > 0 {
      ContentSplitsAtHead(s);
      if IsSpace(s[0]) {
        BlockLinesSkipSpace(s);
        BlockLinesFollowContent(s[1..]);
      } else {
        BlockLinesAtContent(s);
      }
    }
  }

  // ---------------------------------------------------------------------------
  // Raw district records
  // ---------------------------------------------------------------------------

  /** A JSON value as `json.loads` can hand it over in a district record. `Num` is
      a finite float (modelled exactly); `NaN` and `Infinity` are the non-finite
      floats that `json.loads` reads from `NaN`, `Infinity`, `-Infinity` or an
      out-of-range literal such as `1e999`; `Container` is a list or object with
      `size` entries. */
  datatype Value = Null | Bool(b: bool) | Int(i: int) | Num(r: real) | NaN | Infinity(negative: bool)
                 | Str(s: string) | Container(size: nat)

  /** A district as a mapping from field name to value. */
  type RawDistrict = map<string, Value>

  const DistrictKeys: set<string> := {"name", "closed", "off_plan", "in_progress", "open", "planned"}

  /** `{"name": name, **info}`. */
  function DistrictRecord(name: string, info: Counts): (d: RawDistrict)
    ensures d.Keys == DistrictKeys
    ensures d["name"] == Str(name)
    ensures forall c :: d[ColumnName(c)] == Int(info.Get(c))
  {
    map[
      "name" := Str(name),
      "closed" := Int(info.closed),
      "off_plan" := Int(info.offPlan),
      "in_progress" := Int(info.inProgress),
      "open" := Int(info.open),
      "planned" := Int(info.planned)
    ]
  }

  /** The district a block describes: its first non-blank line names it and the
      remaining lines set counters, all of which start at 0. */
  function ParseBlock(block: string): (r: Option<RawDistrict>)
    ensures r.Some? ==> IsParsedRecord(r.value)
  {
    var lines := BlockLines(block);
    if |lines| == 0 then None else Some(DistrictRecord(lines[0], ApplyLines(Zero, lines[1..])))
  }

  /** The shape of a district produced by the text parser: a text name and all
      five counters, as integers. */
  predicate IsParsedRecord(d: RawDistrict) {
    && d.Keys == DistrictKeys
    && d["name"].Str?
    && forall c :: d[ColumnName(c)].Int?
  }

  function ParseBlocks(blocks: seq<string>): (r: seq<RawDistrict>)
    ensures |r| <= |blocks|
    ensures forall k :: 0 <= k < |r| ==> IsParsedRecord(r[k])
  {
    if |blocks| == 0 then []
    else match ParseBlock(blocks[0])
      case None => ParseBlocks(blocks[1..])
      case Some(d) =>
        var rest := ParseBlocks(blocks[1..]);
        AllParsedCons(d, rest);
        [d] + rest
  }

  lemma AllParsedCons(d: RawDistrict, rest: seq<RawDistrict>)
    requires IsParsedRecord(d)
    requires forall k :: 0 <= k < |rest| ==> IsParsedRecord(rest[k])
    ensures forall k :: 0 <= k < |rest| + 1 ==> IsParsedRecord(([d] + rest)[k])
  {
    forall k | 0 < k < |rest| + 1
      ensures ([d] + rest)[k] == rest[k - 1]
    {
    }
  }

  /** `parse_raw_text(text)["districts"]`. */
  function ParseRawText(text: string): (r: seq<RawDistrict>)
    ensures forall k :: 0 <= k < |r| ==> IsParsedRecord(r[k])
  {
    ParseBlocks(SplitBlocks(Strip(text)))
  }

  /** The blocks that hold a non-whitespace character, in order. */
  function ContentBlocks(blocks: seq<string>): (r: seq<string>)
    ensures forall k :: 0 <= k < |r| ==> HasContent(r[k])
  {
    if |blocks| == 0 then []
    else if HasContent(blocks[0]) then [blocks[0]] + ContentBlocks(blocks[1..])
    else ContentBlocks(blocks[1..])
  }

  /** The non-blank lines of a block after its name line. */
  function CounterLines(block: string): seq<string> {
    var lines := BlockLines(block);
    if |lines| == 0 then [] else lines[1..]
  }

  /** The record block `b` describes: named by its first non-blank line, with the
      counters its later lines set. */
  function BlockRecord(b: string): RawDistrict {
    DistrictRecord(FirstContentLine(b), ApplyLines(Zero, CounterLines(b)))
  }

  /** The records of the given blocks, in order. */
  function BlockRecords(cs: seq<string>): (r: seq<RawDistrict>)
    ensures |r| == |cs|
    ensures forall k :: 0 <= k < |cs| ==> r[k] == BlockRecord(cs[k])
  {
    if |cs| == 0 then [] else [BlockRecord(cs[0])] + BlockRecords(cs[1..])
  }

  lemma {:induction false} ParseBlocksFollowContent(blocks: seq<string>)
    ensures ParseBlocks(blocks) == BlockRecords(ContentBlocks(blocks))
  {
    if |blocks| > 0 {
      var b := blocks[0];
      BlockLinesFollowContent(b);
      ParseBlocksFollowContent(blocks[1..]);
      if HasContent(b) {
        var d := ParseBlock(b).value;
        assert ParseBlocks(blocks) == [d] + ParseBlocks(blocks[1..]);
        assert ContentBlocks(blocks) == [b] + ContentBlocks(blocks[1..]);
        assert d == BlockRecord(b);
      } else {
        assert ParseBlocks(blocks) == ParseBlocks(blocks[1..]);
      }
    }
  }

  /** One district per separator-delimited block that holds a non-whitespace
      character, in input order, each named by that block's first non-blank line. */
  lemma ParsedDistrictsFollowBlocks(text: string)
    ensures var r := ParseRawText(text); var cs := ContentBlocks(SplitBlocks(Strip(text)));
            && |r| == |cs|
            && forall k :: 0 <= k < |r| ==> r[k]["name"] == Str(FirstContentLine(cs[k]))
  {
    ParseBlocksFollowContent(SplitBlocks(Strip(text)));
  }

  /** Each counter of a parsed district holds the value of the last line after
      the block's name line that assigns it, or 0 when no line does. */
  lemma ParsedCountersFollowLines(text: string, k: nat, c: Counter)
    requires k < |ParseRawText(text)|
    ensures var cs := ContentBlocks(SplitBlocks(Strip(text)));
            k < |cs| && ParseRawText(text)[k][ColumnName(c)] == Int(LastAssigned(CounterLines(cs[k]), c).GetOr(0))
  {
    var cs := ContentBlocks(SplitBlocks(Strip(text)));
    ParseBlocksFollowContent(SplitBlocks(Strip(text)));
    LaterLinesOverwrite(Zero, CounterLines(cs[k]), c);
  }

  // ---------------------------------------------------------------------------
  // Normalisation
  // ---------------------------------------------------------------------------

  /** The exceptions the summariser can end with. `AttributeError` is `data.get`
      on a decoded feed that is not an object; `NoDistrictData` is the "No
      district data found" exit. */
  datatype Error = ValueError | TypeError | OverflowError | AttributeError | NoDistrictData

  /** The errors `int()` raises on a counter value. */
  predicate IsConversionError(e: Error) {
    e.ValueError? || e.TypeError? || e.OverflowError?
  }

  /** Python's `int(x)` on a float: truncation toward zero. */
  function Truncate(x: real): (n: int)
    ensures x >= 0.0 ==> n as real <= x < n as real + 1.0
    ensures x < 0.0 ==> n as real - 1.0 < x <= n as real
  {
    if x >= 0.0 then x.Floor else -((-x).Floor)
  }

  /** `int(d.get(key, 0) or 0)` for the value stored under a counter key (`None`
      when the key is absent). */
  function CounterValue(v: Option<Value>): (r: Result<int, Error>)
    ensures v.Some? && v.value.Int? ==> r == Success(v.value.i)
    ensures r.Failure? ==> v.Some? && (v.value.Str? || v.value.Container? || v.value.NaN? || v.value.Infinity?)
    ensures r.Failure? ==> IsConversionError(r.error)
  {
    match v
    case None => Success(0)
    case Some(x) =>
      match x
      case Null => Success(0)
      case Bool(b) => Success(if b then 1 else 0)
      case Int(i) => Success(i)
      case Num(f) => Success(Truncate(f))
      case NaN => Failure(ValueError)
      case Infinity(_) => Failure(OverflowError)
      case Str(s) =>
        if s == "" then Success(0)
        else (
          match IntOfText(s)
          case Some(n) => Success(n)
          case None => Failure(ValueError))
      case Container(n) => if n == 0 then Success(0) else Failure(TypeError)
  }

  /** What `int(x or 0)` gives for each kind of value: falsy values read as 0,
      `True` as 1, integers as themselves and finite floats truncated toward zero;
      non-empty text reads as `int()` reads it, which is the integer its `strip()`
      spells, and raises `ValueError` when `int()` rejects it; NaN raises
      `ValueError`, an infinity `OverflowError` and a non-empty container
      `TypeError`. */
  lemma CounterValueSpec(v: Option<Value>)
    ensures var r := CounterValue(v);
            && ((v.None? || v.value in {Null, Bool(false), Int(0), Num(0.0), Str(""), Container(0)}) ==> r == Success(0))
            && (v == Some(Bool(true)) ==> r == Success(1))
            && (v.Some? && v.value.Int? ==> r == Success(v.value.i))
            && (v.Some? && v.value.Num? ==> r == Success(Truncate(v.value.r)))
            && (v == Some(NaN) ==> r == Failure(ValueError))
            && (v.Some? && v.value.Infinity? ==> r == Failure(OverflowError))
            && (v.Some? && v.value.Str? && v.value.s != "" ==>
                  (r.Failure? <==> IntOfText(v.value.s).None?)
                  && (r.Failure? ==> r.error == ValueError)
                  && (r.Success? ==> Some(r.value) == ParseInt(Strip(v.value.s))))
            && (v.Some? && v.value.Container? && v.value.size > 0 ==> r == Failure(TypeError))
            && (r.Failure? ==> v.Some? && (v.value.Str? || v.value.Container? || v.value.NaN? || v.value.Infinity?))
  {
    if v.Some? && v.value.Str? {
      IntOfTextAgreesWithStrip(v.value.s);
    }
  }

  /** A counter written as the text of an integer is read back as that integer. */
  lemma CounterValueOfText(n: int)
    ensures CounterValue(Some(Str(IntToString(n)))) == Success(n)
  {
    IntOfTextRoundTrip(n);
  }

  /** A district once every counter has been filled in. */
  datatype District = District(name: Value, counts: Counts)

  function Field(d: RawDistrict, key: string): Option<Value> {
    if key in d then Some(d[key]) else None
  }

  /** `normalize_district`: the name, defaulting to "", and every counter through
      `CounterValue`, in table order; the first counter that raises ends it. */
  function NormalizeDistrict(d: RawDistrict): Result<District, Error> {
    var closed :- ReadCounter(d, Closed);
    var offPlan :- ReadCounter(d, OffPlan);
    var inProgress :- ReadCounter(d, InProgress);
    var open :- ReadCounter(d, Open);
    var planned :- ReadCounter(d, Planned);
    Success(District(Field(d, "name").GetOr(Str("")), Counts(closed, offPlan, inProgress, open, planned)))
  }

  /** The counters in the order in which `normalize_district` first reads each
      distinct value of STATUS_KEYS (the table has seven keys but five values). */
  const TableOrder: seq<Counter> := [Closed, OffPlan, InProgress, Open, Planned]

  /** The table order lists every counter exactly once. */
  lemma TableOrderListsEveryCounter(c: Counter)
    ensures c in TableOrder
    ensures forall i, j :: 0 <= i < j < |TableOrder| ==> TableOrder[i] != TableOrder[j]
  {
  }

  /** What `int(d.get(key, 0) or 0)` gives for counter `c` of a raw record. */
  function ReadCounter(d: RawDistrict, c: Counter): Result<int, Error> {
    CounterValue(Field(d, ColumnName(c)))
  }

  /** A normalised district has the given name or "" and, for every counter, the
      value `CounterValue` reads from the raw record; normalisation raises only
      when some counter's value raises, and then with the error of the first such
      counter in table order. */
  lemma NormalizeDistrictSpec(d: RawDistrict)
    ensures var r := NormalizeDistrict(d);
            && (r.Success? <==> forall c :: ReadCounter(d, c).Success?)
            && (r.Success? ==> r.value.name == Field(d, "name").GetOr(Str("")))
            && (r.Success? ==> forall c :: ReadCounter(d, c) == Success(r.value.counts.Get(c)))
            && (r.Failure? ==> exists k :: 0 <= k < |TableOrder| && ReadCounter(d, TableOrder[k]) == Failure(r.error)
                                          && forall j :: 0 <= j < k ==> ReadCounter(d, TableOrder[j]).Success?)
  {
    var r := NormalizeDistrict(d);
    if r.Success? {
      forall c
        ensures ReadCounter(d, c) == Success(r.value.counts.Get(c))
      {
        match c
        case Closed =>
        case OffPlan =>
        case InProgress =>
        case Open =>
        case Planned =>
      }
    } else {
      NormalizeFailsAtFirst(d);
    }
  }

  lemma NormalizeFailsAtFirst(d: RawDistrict)
    requires NormalizeDistrict(d).Failure?
    ensures exists k :: 0 <= k < |TableOrder| && ReadCounter(d, TableOrder[k]) == Failure(NormalizeDistrict(d).error)
                        && forall j :: 0 <= j < k ==> ReadCounter(d, TableOrder[j]).Success?
  {
    var e := NormalizeDistrict(d).error;
    var k := if ReadCounter(d, Closed).Failure? then 0
             else if ReadCounter(d, OffPlan).Failure? then 1
             else if ReadCounter(d, InProgress).Failure? then 2
             else if ReadCounter(d, Open).Failure? then 3
             else 4;
    assert ReadCounter(d, TableOrder[k]) == Failure(e);
    assert forall j :: 0 <= j < k ==> ReadCounter(d, TableOrder[j]).Success?;
  }

  /** Normalising a district the text parser produced keeps its name and
      counters unchanged and never raises. */
  lemma NormalizeParsedDistrict(name: string, info: Counts)
    ensures NormalizeDistrict(DistrictRecord(name, info)) == Success(District(Str(name), info))
  {
    var d := DistrictRecord(name, info);
    forall c
      ensures ReadCounter(d, c) == Success(info.Get(c))
    {
    }
  }

  /** The overall district status. */
  datatype Status = StatusClosed | StatusOpen | StatusInProgress

  /** The text of the "Overall District Status" column. */
  function StatusLabel(s: Status): string {
    match s
    case StatusClosed => "Closed"
    case StatusOpen => "Open"
    case StatusInProgress => "In Progress"
  }

  /** One row of the summary. `completionPct` is exact; the source rounds it to
      two decimals for display. */
  datatype Row = Row(name: Value, counts: Counts, total: int, completed: int, remaining: int,
                     completionPct: real, status: Status)

  predicate NonNegative(c: Counts) {
    forall k :: c.Get(k) >= 0
  }

  /** The row derived from one district. */
  function DeriveRow(d: District): (r: Row)
    ensures r.name == d.name && r.counts == d.counts
    ensures r.completed == d.counts.Get(Closed) + d.counts.Get(OffPlan)
    ensures r.completed + r.remaining == r.total
    ensures r.remaining == d.counts.Get(Open) + d.counts.Get(InProgress) + d.counts.Get(Planned)
    ensures r.total == 0 ==> r.completionPct == 0.0
    ensures NonNegative(d.counts) ==> 0.0 <= r.completionPct <= 100.0
    ensures r.status == StatusClosed <==> r.total > 0 && r.completed == r.total
    ensures r.status == StatusOpen <==> r.completed == 0
    ensures r.status == StatusInProgress <==> r.completed != 0 && !(r.total > 0 && r.completed == r.total)
    ensures NonNegative(d.counts) && r.total == 0 ==> r.status == StatusOpen
  {
    var c := d.counts;
    var total := c.closed + c.offPlan + c.inProgress + c.open + c.planned;
    var completed := c.closed + c.offPlan;
    var remaining := c.open + c.inProgress + c.planned;
    var pct := if total != 0 then (completed as real) / (total as real) * 100.0 else 0.0;
    var status :=
      if completed == total && total > 0 then StatusClosed
      else if completed == 0 then StatusOpen
      else StatusInProgress;
    assert NonNegative(c) ==> c.closed >= 0 && c.offPlan >= 0 && c.inProgress >= 0 && c.open >= 0 && c.planned >= 0 by {
      if NonNegative(c) {
        assert c.Get(Closed) >= 0 && c.Get(OffPlan) >= 0 && c.Get(InProgress) >= 0;
        assert c.Get(Open) >= 0 && c.Get(Planned) >= 0;
      }
    }
    assert NonNegative(c) ==> 0.0 <= pct <= 100.0 by {
      if NonNegative(c) && total != 0 {
        PercentInRange(completed, total);
      }
    }
    Row(d.name, c, total, completed, remaining, pct, status)
  }

  /** The percentage is the completed share of the total, scaled to 100. */
  lemma CompletionIsShareOfTotal(d: District)
    ensures var r := DeriveRow(d);
      r.total != 0 ==> r.completionPct * (r.total as real) == (r.completed as real) * 100.0
  {
    var r := DeriveRow(d);
    if r.total != 0 {
      var share := (r.completed as real) / (r.total as real);
      assert r.completionPct == share * 100.0;
      assert share * (r.total as real) == r.completed as real;
    }
  }

  lemma PercentInRange(part: int, whole: int)
    requires 0 <= part <= whole && whole > 0
    ensures 0.0 <= (part as real) / (whole as real) * 100.0 <= 100.0
  {
    assert (part as real) / (whole as real) <= 1.0;
  }

  /** A worked row with part of the territories done. */
  lemma PartlyDoneExample()
    ensures var r := DeriveRow(District(Str("North"), Counts(3, 0, 0, 2, 0)));
            r.total == 5 && r.completed == 3 && r.remaining == 2 && r.completionPct == 60.0
            && StatusLabel(r.status) == "In Progress"
  {
  }

  /** A worked row with nothing done. */
  lemma NothingDoneExample()
    ensures var r := DeriveRow(District(Str("South"), Counts(0, 0, 0, 0, 5)));
            r.total == 5 && r.completionPct == 0.0 && StatusLabel(r.status) == "Open"
  {
  }

  /** A worked row with everything done. */
  lemma AllDoneExample()
    ensures var r := DeriveRow(District(Str("East"), Counts(2, 1, 0, 0, 0)));
            r.completionPct == 100.0 && StatusLabel(r.status) == "Closed"
  {
  }

  /** The counters are not bounded below: with a negative counter the total can be 0
      while the status is "In Progress", a total of 0 is still "Open" when nothing
      is completed, and the percentage can leave [0, 100]. */
  lemma NegativeCountersBreakBounds()
    ensures var r := DeriveRow(District(Str("D"), Counts(5, 0, 0, -5, 0)));
            r.total == 0 && r.completionPct == 0.0 && r.status == StatusInProgress
    ensures var r := DeriveRow(District(Str("D"), Counts(0, 0, 0, 5, -5)));
            r.total == 0 && r.completionPct == 0.0 && r.status == StatusOpen
    ensures DeriveRow(District(Str("D"), Counts(-1, 0, 0, 2, 0))).completionPct == -100.0
  {
    var r := DeriveRow(District(Str("D"), Counts(-1, 0, 0, 2, 0)));
    assert r.total == 1 && r.completed == -1;
    assert r.completionPct == (-1.0) / 1.0 * 100.0;
  }

  /** `f` applied to every element in order; the first element on which `f` fails
      ends the pass with that failure. */
  function MapResult<A, B, E(==)>(f: A -> Result<B, E>, xs: seq<A>): (r: Result<seq<B>, E>)
    ensures r.Success? <==> forall k :: 0 <= k < |xs| ==> f(xs[k]).Success?
    ensures r.Success? ==> |r.value| == |xs|
    ensures r.Success? ==> forall k :: 0 <= k < |xs| ==> r.value[k] == f(xs[k]).value
    ensures r.Failure? ==> exists k :: 0 <= k < |xs| && f(xs[k]).Failure? && f(xs[k]).error == r.error
                                       && forall j :: 0 <= j < k ==> f(xs[j]).Success?
  {
    if |xs| == 0 then Success([])
    else
      match f(xs[0])
      case Failure(e) => Failure(e)
      case Success(d) =>
        var rest := MapResult(f, xs[1..]);
        assert forall k :: 0 < k < |xs| ==> xs[k] == xs[1..][k - 1];
        match rest
        case Failure(e) =>
          var k :| 0 <= k < |xs| - 1 && f(xs[1..][k]).Failure? && f(xs[1..][k]).error == e
                   && forall j :: 0 <= j < k ==> f(xs[1..][j]).Success?;
          assert f(xs[k + 1]).Failure? && f(xs[k + 1]).error == e;
          Failure(e)
        case Success(tail) => Success([d] + tail)
  }

  /** `[normalize_district(d) for d in districts]`: the first district that
      raises ends the comprehension. */
  function NormalizeAll(ds: seq<RawDistrict>): (r: Result<seq<District>, Error>)
    ensures r.Success? <==> forall k :: 0 <= k < |ds| ==> NormalizeDistrict(ds[k]).Success?
    ensures r.Success? ==> |r.value| == |ds|
    ensures r.Success? ==> forall k :: 0 <= k < |ds| ==> r.value[k] == NormalizeDistrict(ds[k]).value
    ensures r.Failure? ==> exists k :: 0 <= k < |ds| && NormalizeDistrict(ds[k]) == Failure(r.error)
                                       && forall j :: 0 <= j < k ==> NormalizeDistrict(ds[j]).Success?
  {
    MapResult(NormalizeDistrict, ds)
  }

  /** `process_districts`: normalise every district, then derive one row per
      district, in input order. */
  function ProcessDistricts(ds: seq<RawDistrict>): (r: Result<seq<Row>, Error>)
    ensures r.Success? <==> forall k :: 0 <= k < |ds| ==> NormalizeDistrict(ds[k]).Success?
    ensures r.Success? ==> |r.value| == |ds|
    ensures r.Success? ==> forall k :: 0 <= k < |ds| ==> r.value[k] == DeriveRow(NormalizeDistrict(ds[k]).value)
    ensures r.Failure? ==> NormalizeAll(ds) == Failure(r.error)
  {
    match NormalizeAll(ds)
    case Failure(e) => Failure(e)
    case Success(districts) => Success(seq(|districts|, k requires 0 <= k < |districts| => DeriveRow(districts[k])))
  }

  /** The run of the command line tool on already-loaded districts: the rows, or
      "No district data found" when there are none. */
  function Summarize(ds: seq<RawDistrict>): (r: Result<seq<Row>, Error>)
    ensures ds == [] ==> r == Failure(NoDistrictData)
    ensures ds != [] ==> r == ProcessDistricts(ds)
  {
    match ProcessDistricts(ds)
    case Failure(e) => Failure(e)
    case Success(rows) => if |rows| == 0 then Failure(NoDistrictData) else Success(rows)
  }

  /** Every record of the text parser's shape normalises without raising. */
  lemma ParsedRecordNormalizes(d: RawDistrict)
    requires IsParsedRecord(d)
    ensures NormalizeDistrict(d).Success?
  {
    var closed := d[ColumnName(Closed)].i;
    var offPlan := d[ColumnName(OffPlan)].i;
    var inProgress := d[ColumnName(InProgress)].i;
    var open := d[ColumnName(Open)].i;
    var planned := d[ColumnName(Planned)].i;
    var info := Counts(closed, offPlan, inProgress, open, planned);
    assert d == DistrictRecord(d["name"].s, info);
    NormalizeParsedDistrict(d["name"].s, info);
  }

  /** Records of the text parser's shape are processed without raising, one row each. */
  lemma ParsedRecordsProcess(ds: seq<RawDistrict>)
    requires forall k :: 0 <= k < |ds| ==> IsParsedRecord(ds[k])
    ensures ProcessDistricts(ds).Success? && |ProcessDistricts(ds).value| == |ds|
  {
    forall k | 0 <= k < |ds|
      ensures NormalizeDistrict(ds[k]).Success?
    {
      ParsedRecordNormalizes(ds[k]);
    }
  }

  /** Processing districts raises only what `int()` raises on a counter. */
  lemma ProcessingRaisesConversionErrors(ds: seq<RawDistrict>)
    ensures ProcessDistricts(ds).Failure? ==> IsConversionError(ProcessDistricts(ds).error)
  {
    if ProcessDistricts(ds).Failure? {
      var e := ProcessDistricts(ds).error;
      var k :| 0 <= k < |ds| && NormalizeDistrict(ds[k]) == Failure(e);
      NormalizeFailsAtFirst(ds[k]);
    }
  }

  // ---------------------------------------------------------------------------
  // Loading a feed
  // ---------------------------------------------------------------------------

  /** The value a whole feed decodes to, as far as `process_districts` looks at
      it: an object with the records of its "districts" list (an absent key reads
      as the empty list), or any other top-level JSON value (a number, string,
      list, boolean or null). */
  datatype Feed = Object(districts: seq<RawDistrict>) | NotObject

  /** `load_data`: `json.loads` is tried first; `decoded` is its result, `None`
      where it raises `JSONDecodeError`, and only then is the text parsed as
      "Key: Value" blocks. */
  function LoadFeed(raw: string, decoded: Option<Feed>): (f: Feed)
    ensures decoded.Some? ==> f == decoded.value
    ensures decoded.None? ==> f == Object(ParseRawText(raw))
  {
    match decoded
    case Some(feed) => feed
    case None => Object(ParseRawText(raw))
  }

  /** `process_districts` followed by the empty check of `main`: `data.get`
      raises `AttributeError` on a feed that is not an object. */
  function RunFeed(f: Feed): Result<seq<Row>, Error> {
    match f
    case NotObject => Failure(AttributeError)
    case Object(ds) => Summarize(ds)
  }

  /** A run fails with `AttributeError` exactly when the feed decodes to a
      non-object, with "No district data found" exactly when it holds no
      districts, and otherwise only with an error of `int()` on a counter. */
  lemma RunFeedFailures(raw: string, decoded: Option<Feed>)
    ensures var f := LoadFeed(raw, decoded);
            var r := RunFeed(f);
            && (r == Failure(AttributeError) <==> decoded == Some(NotObject))
            && (r == Failure(NoDistrictData) <==> f == Object([]))
            && (r.Failure? && f != NotObject && f != Object([]) ==> IsConversionError(r.error))
  {
    var f := LoadFeed(raw, decoded);
    if f.Object? {
      ProcessingRaisesConversionErrors(f.districts);
    }
  }

  /** For a feed `json.loads` rejects, nothing raises: the run fails only when no
      block holds a non-blank line, and otherwise yields one row per such block. */
  lemma RawTextFeedOutcome(text: string)
    ensures var cs := ContentBlocks(SplitBlocks(Strip(text)));
            var r := RunFeed(LoadFeed(text, None));
            && (|cs| == 0 ==> r == Failure(NoDistrictData))
            && (|cs| > 0 ==> r.Success? && |r.value| == |cs|)
  {
    var ds := ParseRawText(text);
    ParsedDistrictsFollowBlocks(text);
    ParsedRecordsProcess(ds);
  }

  /** The text "{}" is one content block. */
  lemma BracesAreOneBlock()
    ensures ContentBlocks(SplitBlocks(Strip("{}"))) == ["{}"]
  {
    assert Strip("{}") == "{}";
    assert "{}"[1..] == "}";
    assert SplitBlocks("}") == ["}"];
    assert ['{'] + "}" == "{}";
    assert SplitBlocks("{}") == ["{}"];
    assert !IsSpace("{}"[0]);
  }

  /** The JSON decoder comes first: the feed "{}" decodes to an object without
      districts and ends in "No district data found", although the text parser
      would have read it as one district named "{}". */
  lemma EmptyObjectFeed()
    ensures RunFeed(LoadFeed("{}", Some(Object([])))) == Failure(NoDistrictData)
    ensures RunFeed(LoadFeed("{}", None)).Success?
  {
    BracesAreOneBlock();
    RawTextFeedOutcome("{}");
    assert Summarize([]) == Failure(NoDistrictData);
  }
}
