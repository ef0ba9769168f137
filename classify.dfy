/** The filename classifiers of the validation stage: the season between the
    first two underscores, and the habitat named by the two-digit code after
    "CPW". Both are total. */
module Classify {
  import opened Runtime

  /** `s.split(sep)`: the pieces of `s` between the non-overlapping
      occurrences of `sep`, scanned from the left. */
  function Split(s: string, sep: string): (parts: seq<string>)
    requires sep != []
    ensures |parts| >= 1
    ensures parts[0] <= s
    decreases |s|
  {
    if |s| < |sep| then [s]
    else if s[..|sep|] == sep then [""] + Split(s[|sep|..], sep)
    else
      var rest := Split(s[1..], sep);
      [[s[0]] + rest[0]] + rest[1..]
  }

  /** Without a separator, splitting yields the whole text as its one piece. */
  lemma {:induction false} SplitWithoutSeparator(s: string, sep: string)
    requires sep != [] && Find(s, sep).None?
    ensures Split(s, sep) == [s]
    decreases |s|
  {
    if |s| >= |sep| {
      assert !OccursAt(s, sep, 0);
      assert Find(s[1..], sep).None?;
      SplitWithoutSeparator(s[1..], sep);
      assert [s[0]] + s[1..] == s;
    }
  }

  /** The first piece of a split is the text before the first separator, and
      the remaining pieces are those of the text after it. */
  lemma {:induction false} SplitAtSeparator(s: string, sep: string, i: nat)
    requires sep != [] && Find(s, sep) == Some(i)
    ensures |Split(s, sep)| >= 2
    ensures Split(s, sep)[0] == s[..i]
    ensures Split(s, sep)[1..] == Split(s[i + |sep|..], sep)
    decreases |s|
  {
    if s[..|sep|] != sep {
      var rest := Split(s[1..], sep);
      assert Split(s, sep) == [[s[0]] + rest[0]] + rest[1..];
      assert Find(s[1..], sep) == Some(i - 1);
      SplitAtSeparator(s[1..], sep, i - 1);
      assert s[1..][i - 1 + |sep|..] == s[i + |sep|..];
      assert [s[0]] + s[1..][..i - 1] == s[..i];
    }
  }

  /** `extract_season` (secondary.py:41-47): the second `_`-separated piece,
      cut before its first " (", or "Unknown" when the piece does not exist. */
  function ExtractSeason(filename: string): (season: string)
    ensures |Split(filename, "_")| < 2 ==> season == "Unknown"
    ensures |Split(filename, "_")| >= 2 ==> season <= Split(filename, "_")[1]
  {
    var parts := Split(filename, "_");
    if |parts| < 2 then "Unknown" else Split(parts[1], " (")[0]
  }

  /** The text of `s` before the first occurrence of `pat`, or all of `s`. */
  function Before(s: string, pat: string): (r: string)
    ensures r <= s
  {
    match Find(s, pat)
    case Some(i) => s[..i]
    case None => s
  }

  lemma FirstPieceIsBefore(s: string, sep: string)
    requires sep != []
    ensures Split(s, sep)[0] == Before(s, sep)
  {
    match Find(s, sep)
    case None => SplitWithoutSeparator(s, sep);
    case Some(i) => SplitAtSeparator(s, sep, i);
  }

  /** The season read off a filename by position: the text between the first
      and the second underscore (or the end), truncated before " (". */
  function SeasonByPosition(filename: string): string
  {
    match Find(filename, "_")
    case None => "Unknown"
    case Some(i) => Before(Before(filename[i + 1..], "_"), " (")
  }

  lemma ExtractSeasonByPosition(filename: string)
    ensures ExtractSeason(filename) == SeasonByPosition(filename)
  {
    match Find(filename, "_")
    case None =>
      SplitWithoutSeparator(filename, "_");
    case Some(i) =>
      SplitAtSeparator(filename, "_", i);
      var rest := filename[i + 1..];
      assert Split(filename, "_")[1] == Split(rest, "_")[0];
      assert ExtractSeason(filename) == Split(Split(rest, "_")[0], " (")[0];
      FirstPieceIsBefore(rest, "_");
      FirstPieceIsBefore(Before(rest, "_"), " (");
  }

  /** A filename without an underscore has an "Unknown" season. */
  lemma SeasonUnknownWithoutUnderscore(filename: string)
    requires '_' !in filename
    ensures ExtractSeason(filename) == "Unknown"
  {
    ExtractSeasonByPosition(filename);
    forall j | 0 <= j && j + 1 <= |filename|
      ensures !OccursAt(filename, "_", j)
    {
      assert filename[j..j + 1] == [filename[j]];
    }
  }

  const CoastalSageScrub := "Coastal Sage Scrub"
  const Disturbed := "Disturbed"
  const Riparian := "Riparian"
  const DisturbedCoastalSageScrub := "Disturbed Coastal Sage Scrub"
  const OakWoodland := "Oak Woodland"
  const MissingHabitat := "MISSING HABITAT DATA"

  /** The six labels `get_habitat_type` can return. */
  const HabitatLabels: set<string> :=
    {CoastalSageScrub, Disturbed, Riparian, DisturbedCoastalSageScrub, OakWoodland, MissingHabitat}

  /** The code table of `get_habitat_type` (secondary.py:56-66). */
  function HabitatOfCode(code: string): (habitat: string)
    ensures habitat in HabitatLabels
  {
    if code in ["01", "05"] then CoastalSageScrub
    else if code in ["02", "03", "06", "09", "10", "11", "12", "15", "17"] then Disturbed
    else if code in ["04", "08", "16", "18"] then Riparian
    else if code in ["07", "13"] then DisturbedCoastalSageScrub
    else if code in ["19", "20"] then OakWoodland
    else MissingHabitat
  }

  predicate IsDigit(ch: char)
  {
    '0' <= ch <= '9'
  }

  /** The number a two-digit code spells. */
  function CodeNumber(code: string): int
    requires |code| == 2
  {
    10 * (code[0] as int - '0' as int) + (code[1] as int - '0' as int)
  }

  /** The table maps exactly the two-digit codes 01 to 20 other than 14: every
      other code, and any code shorter than two characters, is missing data. */
  lemma HabitatCodesMapped(code: string)
    ensures HabitatOfCode(code) != MissingHabitat <==>
      |code| == 2 && IsDigit(code[0]) && IsDigit(code[1]) &&
      1 <= CodeNumber(code) <= 20 && CodeNumber(code) != 14
  {
    if |code| == 2 && IsDigit(code[0]) && IsDigit(code[1]) {
      var n := CodeNumber(code);
      assert code == [code[0], code[1]];
      var d0 := code[0] as int - '0' as int;
      var d1 := code[1] as int - '0' as int;
      assert 0 <= d0 <= 9 && 0 <= d1 <= 9;
      if 1 <= n <= 20 && n != 14 {
        assert d0 == 0 || d0 == 1 || d0 == 2;
        if d0 == 0 {
          assert code[0] == '0';
          assert 1 <= d1 <= 9;
          assert code[1] == (('0' as int) + d1) as char;
        } else if d0 == 1 {
          assert code[0] == '1';
          assert code[1] == (('0' as int) + d1) as char;
        } else {
          assert code[0] == '2' && code[1] == '0';
        }
      }
    }
  }

  /** The habitat code of a filename: the (at most) two characters that
      follow its first "CPW", clipped at the end of the text as a Python
      slice is (secondary.py:52-54); None when "CPW" does not occur. */
  function HabitatCode(filename: string): (code: Option<string>)
    ensures code.Some? <==> Find(filename, "CPW").Some?
    ensures code.Some? ==>
      var i := Find(filename, "CPW").value;
      |code.value| == Min(2, |filename| - (i + 3)) && code.value <= filename[i + 3..]
  {
    match Find(filename, "CPW")
    case None => None
    case Some(i) => Some(filename[i + 3..Min(i + 5, |filename|)])
  }

  /** `get_habitat_type` (secondary.py:50-68) on a text. */
  function HabitatType(filename: string): (habitat: string)
    ensures habitat in HabitatLabels
  {
    match HabitatCode(filename)
    case None => MissingHabitat
    case Some(code) => HabitatOfCode(code)
  }

  /** A filename whose first "CPW" is followed by fewer than two characters
      has missing habitat data, and so has one without "CPW". */
  lemma ShortCodeIsMissing(filename: string)
    requires Find(filename, "CPW").None? || Find(filename, "CPW").value + 5 > |filename|
    ensures HabitatType(filename) == MissingHabitat
  {
    if HabitatCode(filename).Some? {
      HabitatCodesMapped(HabitatCode(filename).value);
    }
  }

  /** `get_habitat_type` on any cell value: a non-text value makes the `in`
      test raise, and the handler returns missing data. */
  function HabitatOfCell(v: Value): (habitat: string)
    ensures habitat in HabitatLabels
  {
    match v
    case Text(s) => HabitatType(s)
    case NaN => MissingHabitat
  }
}
