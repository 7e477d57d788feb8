/** The feature preprocessor (preprocess.py): reads a table of survey answers and
    turns every feature column into a 0/1 presence flag, the Label column into 1/0
    codes and the Rating column into a "greater than 2" flag, zeroing the features
    of rows whose Name holds no ASCII letter, ASCII digit or Arabic character. */
module Preprocess {
  import opened Wrappers
  import opened Text

  /** One cell of the table as pandas holds it after reading the CSV: missing,
      an integer, a float, or text. */
  datatype Cell = NA | Int(i: int) | Num(r: real) | Str(s: string)

  /** A table: its header and its rows, each row listing one cell per column. */
  datatype Frame = Frame(columns: seq<string>, rows: seq<seq<Cell>>)

  predicate WellFormed(f: Frame) {
    forall i :: 0 <= i < |f.rows| ==> |f.rows[i]| == |f.columns|
  }

  // ---------------------------------------------------------------------------
  // The name check
  // ---------------------------------------------------------------------------

  /** The character class `[A-Za-z0-9]` plus the Arabic block U+0600..U+06FF. */
  predicate IsWordChar(c: char) {
    ('A' <= c <= 'Z') || ('a' <= c <= 'z') || ('0' <= c <= '9') || ('\U{0600}' <= c <= '\U{06FF}')
  }

  /** A left-to-right search for the character class. */
  function HasWordChar(s: string): (b: bool)
    ensures b <==> exists k :: 0 <= k < |s| && IsWordChar(s[k])
  {
    if |s| == 0 then false
    else if IsWordChar(s[0]) then true
    else
      var b := HasWordChar(s[1..]);
      assert forall k :: 1 <= k < |s| ==> s[k] == s[1..][k - 1];
      b
  }

  /** `contains_arabic_or_english_or_digits` on one cell: a cell that is not text
      is tested on its `str()` form, which is "nan" for a missing cell and always
      shows a digit (or the letters of "inf") for a number. */
  function NameCheck(c: Cell): bool {
    match c
    case NA => HasWordChar("nan")
    case Int(i) => HasWordChar(IntToString(i))
    case Num(_) => true
    case Str(s) => HasWordChar(s)
  }

  /** Only a text cell can fail the name check: a missing name ("nan") and any
      number pass it. */
  lemma NameCheckFailsOnlyOnText(c: Cell)
    ensures !NameCheck(c) <==> c.Str? && forall k :: 0 <= k < |c.s| ==> !IsWordChar(c.s[k])
  {
    match c
    case NA =>
      assert IsWordChar("nan"[0]);
    case Int(i) =>
      IntTextShape(i);
      var t := IntToString(i);
      assert IsWordChar(t[|t| - 1]);
    case Num(_) =>
    case Str(s) =>
  }

  // ---------------------------------------------------------------------------
  // Per-cell encodings
  // ---------------------------------------------------------------------------

  /** `map({"Good": 1, "Bad": 0})`: exact text matches only; anything else,
      including a missing cell, becomes missing. */
  function LabelCode(c: Cell): Cell {
    if c == Str("Good") then Int(1) else if c == Str("Bad") then Int(0) else NA
  }

  /** The Label codes: exactly the text "Good" becomes 1, exactly "Bad" becomes 0,
      and every other cell, a missing one, a number or other text, becomes missing. */
  lemma LabelCodeSpec(c: Cell)
    ensures LabelCode(c) == Int(1) <==> c == Str("Good")
    ensures LabelCode(c) == Int(0) <==> c == Str("Bad")
    ensures LabelCode(c) == NA <==> c != Str("Good") && c != Str("Bad")
  {
  }

  /** `pd.to_numeric(x, errors="coerce")` on one cell; `None` for `NaN`. */
  function Numeric(c: Cell): Option<real> {
    match c
    case NA => None
    case Int(i) => Some(i as real)
    case Num(r) => Some(r)
    case Str(s) => ParseDecimal(s)
  }

  /** The Rating flag: 1 when the cell reads as a number above 2, else 0 (a
      comparison with `NaN` is false). */
  function RatingCode(c: Cell): Cell {
    match Numeric(c)
    case Some(v) => if v > 2.0 then Int(1) else Int(0)
    case None => Int(0)
  }

  /** The presence flag of text: 0 when it is blank after stripping or reads
      "missing" in any case. */
  function TextPresence(s: string): Cell {
    var t := Strip(s);
    if t == "" || Lower(t) == "missing" then Int(0) else Int(1)
  }

  /** The presence flag of a feature cell, tested on the cell's `str()` form. */
  function Presence(c: Cell): Cell {
    match c
    case NA => Int(0)
    case Int(i) => TextPresence(IntToString(i))
    case Num(_) => Int(1)
    case Str(s) => TextPresence(s)
  }

  /** The rating flag is 1 exactly for cells whose numeric reading exceeds 2,
      and text holding an integer is rated like that integer. */
  lemma RatingCodeSpec(c: Cell, n: int)
    ensures RatingCode(c) == Int(1) <==> Numeric(c).Some? && Numeric(c).value > 2.0
    ensures RatingCode(c) == Int(0) <==> !(Numeric(c).Some? && Numeric(c).value > 2.0)
    ensures RatingCode(Str(IntToString(n))) == RatingCode(Int(n))
  {
    ParseDecimalOfInt(n);
  }

  /** Text is absent exactly when it is blank or reads "missing" once stripped. */
  lemma TextPresenceSpec(s: string)
    ensures TextPresence(s) == Int(0) || TextPresence(s) == Int(1)
    ensures TextPresence(s) == Int(0) <==> AllSpace(s) || Lower(Strip(s)) == "missing"
  {
  }

  /** The text of an integer is always present. */
  lemma IntIsPresent(n: int)
    ensures TextPresence(IntToString(n)) == Int(1)
  {
    IntTextIsStripped(n);
    var t := IntToString(n);
    IntTextShape(n);
    assert Lower(t)[0] != 'm';
  }

  /** A feature cell is absent exactly when it is missing, blank, or the word
      "missing"; every number is present. */
  lemma PresenceSpec(c: Cell)
    ensures Presence(c) == Int(0) || Presence(c) == Int(1)
    ensures Presence(c) == Int(0) <==>
      c.NA? || (c.Str? && (AllSpace(c.s) || Lower(Strip(c.s)) == "missing"))
  {
    match c
    case NA =>
    case Int(i) => IntIsPresent(i);
    case Num(_) =>
    case Str(s) => TextPresenceSpec(s);
  }

  // ---------------------------------------------------------------------------
  // The table steps
  // ---------------------------------------------------------------------------

  /** Applies `code` to every cell whose column `sel` picks. */
  function MapCells(f: Frame, sel: string -> bool, code: Cell -> Cell): (g: Frame)
    requires WellFormed(f)
    ensures WellFormed(g) && g.columns == f.columns && |g.rows| == |f.rows|
    ensures forall i, j :: 0 <= i < |f.rows| && 0 <= j < |f.columns| ==>
              g.rows[i][j] == if sel(f.columns[j]) then code(f.rows[i][j]) else f.rows[i][j]
  {
    var rows := seq(|f.rows|, i requires 0 <= i < |f.rows| =>
      seq(|f.columns|, j requires 0 <= j < |f.columns| =>
        if sel(f.columns[j]) then code(f.rows[i][j]) else f.rows[i][j]));
    Frame(f.columns, rows)
  }

  function IndexOf(xs: seq<string>, x: string): (r: Option<nat>)
    ensures r.None? <==> x !in xs
    ensures r.Some? ==> r.value < |xs| && xs[r.value] == x && x !in xs[..r.value]
  {
    if |xs| == 0 then None
    else if xs[0] == x then Some(0)
    else
      match IndexOf(xs[1..], x)
      case None => None
      case Some(k) =>
        assert xs[..k + 1] == [xs[0]] + xs[1..][..k];
        Some(k + 1)
  }

  /** `df.columns.str.strip()`. */
  function StripColumns(f: Frame): (g: Frame)
    ensures |g.columns| == |f.columns| && g.rows == f.rows
    ensures forall j :: 0 <= j < |f.columns| ==> g.columns[j] == Strip(f.columns[j])
  {
    Frame(seq(|f.columns|, j requires 0 <= j < |f.columns| => Strip(f.columns[j])), f.rows)
  }

  /** The columns of `feature_cols`: every column but Name, Category and Label. */
  predicate IsFeature(name: string) {
    name != "Name" && name != "Category" && name != "Label"
  }

  function EncodeLabel(f: Frame): (g: Frame)
    requires WellFormed(f)
    ensures WellFormed(g) && g.columns == f.columns && |g.rows| == |f.rows|
    ensures forall i, j :: 0 <= i < |f.rows| && 0 <= j < |f.columns| ==>
              g.rows[i][j] == if f.columns[j] == "Label" then LabelCode(f.rows[i][j]) else f.rows[i][j]
  {
    if "Label" in f.columns then MapCells(f, name => name == "Label", LabelCode) else f
  }

  function EncodeRating(f: Frame): (g: Frame)
    requires WellFormed(f)
    ensures WellFormed(g) && g.columns == f.columns && |g.rows| == |f.rows|
    ensures forall i, j :: 0 <= i < |f.rows| && 0 <= j < |f.columns| ==>
              g.rows[i][j] == if f.columns[j] == "Rating" then RatingCode(f.rows[i][j]) else f.rows[i][j]
  {
    if "Rating" in f.columns then MapCells(f, name => name == "Rating", RatingCode) else f
  }

  /** The presence flags of every feature column except Rating. */
  function EncodePresence(f: Frame): (g: Frame)
    requires WellFormed(f)
    ensures WellFormed(g) && g.columns == f.columns && |g.rows| == |f.rows|
    ensures forall i, j :: 0 <= i < |f.rows| && 0 <= j < |f.columns| ==>
              g.rows[i][j] == if IsFeature(f.columns[j]) && f.columns[j] != "Rating"
                              then Presence(f.rows[i][j]) else f.rows[i][j]
  {
    MapCells(f, name => IsFeature(name) && name != "Rating", Presence)
  }

  /** One row of `df.loc[mask, feature_cols] = 0`, given the Name column `k`. */
  function MaskRow(columns: seq<string>, row: seq<Cell>, k: nat): (r: seq<Cell>)
    requires |row| == |columns| && k < |columns|
    ensures |r| == |row|
  {
    if NameCheck(row[k]) then row
    else seq(|row|, j requires 0 <= j < |row| => if IsFeature(columns[j]) then Int(0) else row[j])
  }

  function MaskNames(f: Frame): (g: Frame)
    requires WellFormed(f)
    ensures WellFormed(g) && g.columns == f.columns && |g.rows| == |f.rows|
  {
    match IndexOf(f.columns, "Name")
    case None => f
    case Some(k) =>
      Frame(f.columns, seq(|f.rows|, i requires 0 <= i < |f.rows| => MaskRow(f.columns, f.rows[i], k)))
  }

  /** `preprocess_data` after the CSV has been read. */
  function PreprocessFrame(f: Frame): (g: Frame)
    requires WellFormed(f)
    ensures WellFormed(g) && |g.rows| == |f.rows| && |g.columns| == |f.columns|
    ensures forall j :: 0 <= j < |f.columns| ==> g.columns[j] == Strip(f.columns[j])
  {
    MaskNames(EncodePresence(EncodeRating(EncodeLabel(StripColumns(f)))))
  }

  // ---------------------------------------------------------------------------
  // The cell rule
  // ---------------------------------------------------------------------------

  /** Whether a row's Name fails the check; rows of a table without a Name
      column are never masked. */
  function Masked(columns: seq<string>, row: seq<Cell>): bool
    requires |row| == |columns|
  {
    match IndexOf(columns, "Name")
    case None => false
    case Some(k) => !NameCheck(row[k])
  }

  /** What one output cell should hold, decided from the original cell alone
      (and the row's Name): Name and Category kept, Label coded, features zero in
      a masked row, and otherwise the rating or presence flag. */
  function ExpectedCell(columns: seq<string>, row: seq<Cell>, j: nat): Cell
    requires |row| == |columns| && j < |row|
  {
    var name := columns[j];
    if name == "Label" then LabelCode(row[j])
    else if !IsFeature(name) then row[j]
    else if Masked(columns, row) then Int(0)
    else if name == "Rating" then RatingCode(row[j])
    else Presence(row[j])
  }

  /** The three encoding steps, seen on one cell: each column is touched by at
      most one of them. */
  lemma EncodedCell(s: Frame, i: nat, j: nat)
    requires WellFormed(s) && i < |s.rows| && j < |s.columns|
    ensures var e := EncodePresence(EncodeRating(EncodeLabel(s)));
      var name := s.columns[j];
      var c := s.rows[i][j];
      WellFormed(e) && e.columns == s.columns && |e.rows| == |s.rows| &&
      e.rows[i][j] == if name == "Label" then LabelCode(c)
                      else if name == "Rating" then RatingCode(c)
                      else if IsFeature(name) then Presence(c)
                      else c
  {
  }

  /** The masking step, seen on one cell. */
  lemma MaskedCell(e: Frame, i: nat, j: nat)
    requires WellFormed(e) && i < |e.rows| && j < |e.columns|
    ensures MaskNames(e).rows[i][j] ==
      if Masked(e.columns, e.rows[i]) && IsFeature(e.columns[j]) then Int(0) else e.rows[i][j]
  {
  }

  /** Encoding leaves the Name cell alone, so it masks the same rows. */
  lemma EncodingKeepsMask(s: Frame, i: nat)
    requires WellFormed(s) && i < |s.rows|
    ensures var e := EncodePresence(EncodeRating(EncodeLabel(s)));
      Masked(e.columns, e.rows[i]) == Masked(s.columns, s.rows[i])
  {
    match IndexOf(s.columns, "Name")
    case None =>
    case Some(k) => EncodedCell(s, i, k);
  }

  /** The staged pipeline agrees with the cell rule on one cell. */
  lemma CellRuleAt(f: Frame, i: nat, j: nat)
    requires WellFormed(f) && i < |f.rows| && j < |f.columns|
    ensures var g := PreprocessFrame(f);
      g.columns == StripColumns(f).columns && g.rows[i][j] == ExpectedCell(g.columns, f.rows[i], j)
  {
    var s := StripColumns(f);
    var e := EncodePresence(EncodeRating(EncodeLabel(s)));
    assert PreprocessFrame(f) == MaskNames(e);
    EncodedCell(s, i, j);
    EncodingKeepsMask(s, i);
    MaskedCell(e, i, j);
  }

  /** The staged pipeline agrees, cell by cell, with the cell rule over the
      stripped header. */
  lemma PreprocessFollowsCellRule(f: Frame)
    requires WellFormed(f)
    ensures var g := PreprocessFrame(f);
      g.columns == StripColumns(f).columns &&
      forall i, j :: 0 <= i < |f.rows| && 0 <= j < |f.columns| ==>
        g.rows[i][j] == ExpectedCell(g.columns, f.rows[i], j)
  {
    var g := PreprocessFrame(f);
    assert g.columns == StripColumns(f).columns by {
      if |f.rows| > 0 && |f.columns| > 0 {
        CellRuleAt(f, 0, 0);
      } else {
        assert forall j :: 0 <= j < |f.columns| ==> g.columns[j] == StripColumns(f).columns[j];
      }
    }
    forall i, j | 0 <= i < |f.rows| && 0 <= j < |f.columns|
      ensures g.rows[i][j] == ExpectedCell(g.columns, f.rows[i], j)
    {
      CellRuleAt(f, i, j);
    }
  }

  // ---------------------------------------------------------------------------
  // Consequences
  // ---------------------------------------------------------------------------

  /** After preprocessing every feature cell is 0 or 1, every Label cell is 1, 0
      or missing, and Name and Category cells are unchanged. */
  lemma OutputCodes(f: Frame, i: nat, j: nat)
    requires WellFormed(f) && i < |f.rows| && j < |f.columns|
    ensures var g := PreprocessFrame(f);
      (IsFeature(g.columns[j]) ==> g.rows[i][j] == Int(0) || g.rows[i][j] == Int(1)) &&
      (g.columns[j] == "Label" ==> g.rows[i][j] in {Int(0), Int(1), NA}) &&
      (g.columns[j] == "Name" || g.columns[j] == "Category" ==> g.rows[i][j] == f.rows[i][j])
  {
    PreprocessFollowsCellRule(f);
    PresenceSpec(f.rows[i][j]);
  }

  /** A row whose Name fails the check has every feature, Rating included, set
      to 0; a row whose Name passes has its features encoded from its own cells. */
  lemma MaskZeroesFeatures(f: Frame, i: nat, j: nat)
    requires WellFormed(f) && i < |f.rows| && j < |f.columns|
    requires IsFeature(Strip(f.columns[j]))
    ensures var g := PreprocessFrame(f);
      var name := g.columns[j];
      (Masked(g.columns, f.rows[i]) ==> g.rows[i][j] == Int(0)) &&
      (!Masked(g.columns, f.rows[i]) && name == "Rating" ==> g.rows[i][j] == RatingCode(f.rows[i][j])) &&
      (!Masked(g.columns, f.rows[i]) && name != "Rating" ==> g.rows[i][j] == Presence(f.rows[i][j]))
  {
    PreprocessFollowsCellRule(f);
  }

  /** Column names are matched after stripping: a header " Label " is encoded
      as the Label column. */
  lemma HeaderIsStripped(f: Frame, i: nat, j: nat)
    requires WellFormed(f) && i < |f.rows| && j < |f.columns|
    requires Strip(f.columns[j]) == "Label"
    ensures PreprocessFrame(f).rows[i][j] == LabelCode(f.rows[i][j])
  {
    PreprocessFollowsCellRule(f);
  }
}
